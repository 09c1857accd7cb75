# A verified model of move.mil's award queue, calendar, bill of lading numbers, moves and ledgers

The repository schedules household goods moves for service members. This project models the parts of it that
hold state machines, search loops, counters and parsers, and proves what they keep over whole runs.

- **Offering shipments.** `Performances` is the rule that picks the provider performance next in line;
  `OfferLoop` is the loop that offers one shipment to performance after performance; `Turns` computes from the
  offer counts how often the loop comes to each competitor; `Rotation` says exactly when it finds a free
  provider, when it offers to nobody twice and when it is a fair rotation; `Fairness` says what balanced counts
  buy a pass of the queue and whole runs, `FairQueue` what they buy runs of the queue itself; `Examples` holds
  two runs that end where nobody meant them to.
  `Store` states every committed operation as a function from one state of the tables to the next; `Protocol`
  proves what every run of such operations keeps; `Database`, `Offers`, `Bands`, `Banding` and `AwardQueue` hold the
  queries, loops and classes, each proved equal to its function. `NextInLine`, `Columns`, `SearchColumns` and
  `BandColumns` say what those functions mean in the columns of the tables, without naming their parts.
- **Shipments and dates.** `Shipments` is the shipment state machine; `Dates` is the workday arithmetic: four
  differently shaped loops against one filter.
- **Bill of lading numbers.** `GblNumbers` is the printed form; `GblAssignment` the counters, the transaction
  around them and the copies in memory that may be stale.
- **Moves.** `Moves` is the walk over a move's parts, over a heap in which two personally procured moves may
  share a reimbursement; `Lifecycles` holds the state machines of reimbursements and procured moves.
- **Texts and ledgers.** `Certificates` (the lazy pattern that splits PEM text), `LogFilters` and `LogPrinter`
  (the log tool's argument scanner and paged printer), `LineItems` (repricing a shipment), `Accessorials`
  (35A billing), `Expenses` (worksheet subtotals kept under printed names).

Where the source changes objects or loops over variables, the model has a class or a method with a loop whose
postcondition equates the new state with a specification function; the lemmas are about those functions.

## What turned out differently from what comments and names say

- The offer loop is said to try again until a provider without a blackout is found
  (pkg/awardqueue/awardqueue.go:71-74). Whatever the blackouts, it finds a free provider if there is one exactly
  when, as the attempt begins, nobody after the first pick in the fixed order of bands, scores and rows has had
  more offers than it, and nobody before it more than one offer more (`Rotation.AlwaysEndsFreeIff`, for
  providers that compete once; `Rotation.EndsFreeIff` for given blackouts and any providers). Nobody is offered
  the shipment twice exactly when nobody is far behind the first pick (`Rotation.NobodyTwiceIff`). Both together
  are the staircase of one step in which every competitor gets one turn (`Rotation.StairsIff`,
  `Rotation.OneTurnEachIffStairs`). `Rotation.SecondOfferExample` and `Rotation.FreeProviderMissedExample` are
  counts that violate the one and the other.
- The minimum score of 0 is said to exclude nobody (pkg/awardqueue/awardqueue.go:27-30). The query asks for more
  than the minimum, so a score of 0, which is valid, is never banded and its group comes up again on every run
  (`Banding.UnbandedAfterwardsIff`, `Banding.ZeroScoreIsLeftOut`).
- A rejection returns a shipment to the submitted state (pkg/models/shipment.go:254). The queue only considers
  shipments without any offer, so the shipment stays submitted for ever (`Protocol.NeverOfferedAgain`, `Examples.RejectedAndForgotten`).
- Accepting looks the offer up by provider, so a provider that was offered the shipment administratively can
  accept it (`Protocol.AcceptedOfferIsRealIff`, `Examples.BlackedOutProviderAccepts`). For the provider that holds the real offer the look-up is never
  ambiguous (`Protocol.RealProviderCanAccept`).
- A GBL number is said to be assigned only once (pkg/models/shipment.go:533). The guard looks at the copy in memory
  (`GblAssignment.NumbersKeptIff`, `GblAssignment.StaleCopyExample`). Numbers of different offices can coincide
  when one office code continues another in a way that a sequence number can (`GblAssignment.DistinctForeverIff`,
  `GblAssignment.ClashExample`).
- Saving a shipment is said to ensure that both original dates are set (pkg/models/shipment.go:340). It does not when the
  pack date is set and the delivery date is not (`Shipments.FillingDates`, `Shipments.DeliveryDateStaysUnset`).
- Submitting a move that fails half way leaves it submitted, so it can not be submitted again
  (`Moves.Move.Submit`, `Moves.SharedReimbursementExample`).
- Parsing printed certificates again is stable except for blank ones, of which only a newline in the last place
  survives (`Certificates.ParseIsStableIff`, `Certificates.BlankCertificateExample`).
- Nothing keeps a plain quantity from overwriting an approved 35A bill (`Accessorials.UpdateKeepsBillIff`,
  `Accessorials.PlainQuantityExample`), and an argument that ends in `!`, `<` or `>` makes the log tool index past
  its end (`LogFilters.PanicIff`, `LogFilters.PanicExample`).

## Model

| member | source | states |
|---|---|---|
| `Turns.VisitsAreDue` | pkg/awardqueue/awardqueue.go:71-144 | with everybody blacked out, each competitor is offered the shipment exactly as often as a closed form over the starting counts says (at most once in the first pick's band; not at all outside it if the band before is more than one offer ahead; otherwise up to one more than the first pick's new count in better bands, and in worse bands up to that new count or the highest level of a band in between), and nobody else is offered it |
| `Turns.SelectIsChosen` | pkg/models/transportation_service_provider_performance.go:168-190 | the pick leads its band, and its band is the first whose least count is below that of the band before it, or the best band if no count falls along the bands |
| `Rotation.EndsFreeIff` | pkg/awardqueue/awardqueue.go:86-144 | for any blackouts, an attempt ends with a free provider exactly if one of the competitors that are due by that closed form is free |
| `Rotation.AlwaysEndsFreeIff` | pkg/awardqueue/awardqueue.go:71-91 | whatever the blackouts a free provider is found if there is one, if and only if nobody after the first pick has had more offers than it and nobody before it more than one offer more; for providers with one performance each |
| `Rotation.AlwaysEndsFreeIffDue` | pkg/awardqueue/awardqueue.go:71-91 | the same for any providers: exactly if each of them is due with one of its performances |
| `Rotation.NobodyTwiceIff` | pkg/awardqueue/awardqueue.go:86-144 | whatever the blackouts nobody is offered the shipment twice, if and only if the loop stays in its first band, or everybody in better bands has had more offers than the first pick, and everybody in worse bands at least as many as it and at most one fewer than the least of each band in between |
| `Rotation.StairsIff` | pkg/awardqueue/awardqueue.go:71-144 | the staircase is exactly the two conditions together |
| `Rotation.OneTurnEachIffStairs` | pkg/awardqueue/awardqueue.go:71-144 | with every competitor blacked out, the loop offers the shipment to each competitor exactly once before it gives up if and only if the offer counts it began with form a staircase of at most one step along the fixed order of bands, scores and rows |
| `Rotation.StairsOfferOnce` | pkg/awardqueue/awardqueue.go:71-144 | a corollary: on a staircase, whatever the blackouts, only competitors are offered the shipment and none twice |
| `Rotation.StairsFindTheFree` | pkg/awardqueue/awardqueue.go:71-144 | a corollary: on a staircase the loop ends with a provider without a blackout exactly when some competitor has none |
| `Rotation.TraceKeepsStairs` | pkg/awardqueue/awardqueue.go:86-144 | an attempt that begins on a staircase leaves a staircase, whatever the blackouts |
| `Rotation.SecondOfferExample` | pkg/awardqueue/awardqueue.go:86-144 | counts 2, 1, 0 in three bands with everybody blacked out: the third provider is offered the same shipment twice |
| `Rotation.FreeProviderMissedExample` | pkg/awardqueue/awardqueue.go:86-91 | counts 0, 5, 5 with only the first provider blacked out: the loop gives up after one try although others are free |
| `Rotation.SelectIsSelected` | pkg/models/transportation_service_provider_performance.go:134-190 | whoever is picked is ahead of its whole band, and either has the fewest offers and the best band of all competitors or has had fewer offers than everybody in the band before |
| `Rotation.SelectOnStairs` | pkg/models/transportation_service_provider_performance.go:168-190 | on a staircase the one picked is the first, in the fixed order, among those with the fewest offers |
| `Performances.SelectNextFacts` | pkg/models/transportation_service_provider_performance.go:168-190 | the band picked is the first whose front runner has had fewer offers than that of the band before it; if there is none, counts never fall along the bands and the best band is picked |
| `Performances.GatheredFacts` | pkg/models/transportation_service_provider_performance.go:133-156 | the gathered map holds, for exactly the bands that have a competitor, the competitor ahead of all others of the band; it is empty exactly when nobody competes |
| `Performances.FirstOfFacts` | pkg/models/transportation_service_provider_performance.go:103-131 | the band query returns an eligible row of the band that is ahead of every other, and nothing only if the band has no eligible row |
| `Performances.Select` | pkg/models/transportation_service_provider_performance.go:158-166 | somebody is picked exactly when somebody competes, and whoever is picked competes |
| `NextInLine.NextLeadsItsBand` | pkg/models/transportation_service_provider_performance.go:117-124 | whoever is picked comes before every other row of its band that meets the query: fewer offers, or as many and a higher score, or as many and the same score and an earlier row |
| `NextInLine.SelectIffNext` | pkg/models/transportation_service_provider_performance.go:103-190 | the row picked is exactly the one that meets the query, comes first in its band in that order, and whose band is the first that falls behind the next better one in least offers, or the best band if none does, all told in columns |
| `NextInLine.SomebodyIsNextIff` | pkg/models/transportation_service_provider_performance.go:108-124 | somebody is picked exactly when some row has the list, an enrolled provider, a band from 1 to 4, the book date in its performance period and the requested pickup date in its rate cycle |
| `OfferLoop.Trace` | pkg/awardqueue/awardqueue.go:86-144 | the loop terminates for every table and every set of blackouts: the measure is the room left below a cap that the picks never reach |
| `OfferLoop.SelectBelowCap` | pkg/awardqueue/awardqueue.go:71-91 | while the first pick is below a cap that nobody exceeds, whoever is next in line is below it too |
| `OfferLoop.TraceIsARun` | pkg/awardqueue/awardqueue.go:86-144 | the visits of the loop satisfy the declarative account of a run: each is next in line after the offers before it, only the last may be free, and the loop stops neither earlier nor later |
| `OfferLoop.RunIsUnique` | pkg/awardqueue/awardqueue.go:86-144 | the declarative account fixes the visits completely |
| `OfferLoop.VisitsAreShort` | pkg/awardqueue/awardqueue.go:86-91 | an attempt makes no more offers than its competitors have room for below their largest count plus two |
| `Fairness.BalancedAttempt` | pkg/awardqueue/awardqueue.go:47-150 | with balanced counts and a free provider an attempt awards the shipment, changes nothing but that shipment, the counts and its own offers, and leaves the counts balanced |
| `Fairness.BalancedPass` | pkg/awardqueue/awardqueue.go:155-179 | when the counts of the providers that compete for a batch are balanced and each shipment has a free provider, one pass awards every shipment of the batch, leaves all others alone and leaves the counts balanced |
| `Fairness.BalancedForEver` | pkg/awardqueue/awardqueue.go:155-179 | once balanced, the counts stay balanced over every run that leaves the bands of the contest's distribution list as they are and offers shipments to all of these providers or to none of them, whatever the blackouts; then no two of them are more than one offer apart, nobody is offered a shipment twice and a free provider is found whenever there is one |
| `FairQueue.QueueRunFits` | pkg/awardqueue/awardqueue.go:269-296 | a run of the queue that finds nothing to band in the distribution list, and only shipments for all or none of its providers, is such a run of steps, and the next run of the queue fits again |
| `FairQueue.QueueKeepsBalance` | pkg/awardqueue/awardqueue.go:269-296 | over any number of runs of the queue the counts stay balanced, if they are and nothing of the list needs banding when the first begins |
| `FairQueue.LifeKeepsBalance` | pkg/awardqueue/awardqueue.go:269-296 | the same with drafts, submissions, edits, acceptances and rejections between the runs |
| `Protocol.EveryRun` | pkg/models/shipment.go:946-959 | from a state without offers, over every run of banding, attempts, acceptances, rejections, shipment events and edits of shipments, blackouts and provider records: every shipment has at most one real offer and exactly one once awarded, exactly one accepted offer when its status requires one and none otherwise; an offer is administrative exactly if its provider was blacked out when the shipment was offered; each count has risen by exactly the offers on record |
| `Columns.ShipmentInEveryRun` | pkg/models/shipment.go:946-978 | in every state a run from a state without offers reaches, no two offers of a shipment are real and no two are accepted; one is accepted exactly from acceptance on, one is real from the award on, and a draft has none |
| `Columns.AnswersInEveryRun` | pkg/models/shipment_offer.go:59-77 | over every run an offer is unanswered, or accepted without a reason, or rejected with the reason of a rejection of just that offer in the run; an answer once given stays |
| `Protocol.NextKeepsInv` | pkg/models/shipment.go:224-324 | every single step keeps that invariant |
| `Protocol.RunKeepsInv` | pkg/models/shipment.go:224-324 | every run keeps it, from any state in which it holds |
| `Protocol.PastIsTrue` | pkg/awardqueue/awardqueue.go:97-104 | what the run remembers as blacked out for a shipment was so at the very step that turned to the shipment while it had no offer |
| `Protocol.AttemptShape` | pkg/awardqueue/awardqueue.go:86-150 | an attempt adds administrative offers followed by one real one on success, and administrative ones only when it comes round; counts rise by exactly the offers made; only the shipment's own record changes, and only on success; a submitted shipment is always awarded when a free provider is reached |
| `Protocol.NeverOfferedAgain` | pkg/models/shipment.go:254-261 | a submitted shipment that has an offer, because only blackouts were found or because it was rejected, keeps exactly its offers and stays submitted over every later run |
| `Protocol.StepLeavesOffered` | pkg/models/shipment.go:562-575 | the same for each single step: the query for shipments to offer skips it |
| `Protocol.AcceptedOfferIsRealIff` | pkg/models/shipment.go:742-783 | in every reachable state a successful acceptance marks the real offer exactly when the accepting provider had no blackout when the shipment was offered |
| `Examples.BlackedOutProviderAccepts` | pkg/models/shipment.go:742-783 | a run of two steps from a state without offers ends with the shipment accepted by the provider that is blacked out for it, and the real offer unanswered |
| `Examples.RejectedAndForgotten` | pkg/models/shipment.go:254-261 | a run of award, rejection and another attempt ends with the shipment submitted, its two offers as before, and no longer considered |
| `Protocol.RealProviderCanAccept` | pkg/models/shipment_offer.go:99-117 | in every reachable state the provider of a real offer has that one offer only for the shipment, so its look-up finds it, and it can accept exactly while the shipment is awarded and the offer unanswered |
| `Protocol.BatchIsARun` | pkg/awardqueue/awardqueue.go:155-179 | the pass over all shipments that had no offer is a run of single attempts, each of them on a shipment that still has none |
| `Offers.SearchIsNeverSurprised` | pkg/models/shipment.go:946-978 | in every state a run reaches, the search for the accepted offer never reports several nor a missing one, and finds none exactly when the status requires none |
| `Offers.SearchFindsTheAccepted` | pkg/models/shipment.go:934-978 | where status and offers agree, the search returns the one accepted offer, or complains about what its provider's record lacks |
| `Offers.AcceptedShipmentOffer` | pkg/models/shipment.go:947-978 | the search returns the error or the offer of its specification, error by error |
| `SearchColumns.SearchOutcome` | pkg/models/shipment.go:947-978 | each outcome as an if and only if over the columns: the record of the first accepted offer whose provider's record lacks something, and what it lacks first; several accepted offers with their number; the one accepted offer; none, which is an error exactly from acceptance on |
| `SearchColumns.AcceptedPositions` | pkg/models/shipment_offer.go:120-144 | the offers looked at are exactly the accepted ones of the shipment, in table order |
| `Offers.Accepted` | pkg/models/shipment_offer.go:120-144 | the accepted offers in order, or what the first incomplete one lacks |
| `Offers.ShipmentOffer.Accept` | pkg/models/shipment_offer.go:59-66 | an unanswered offer becomes accepted, an answered one is refused unchanged |
| `Offers.ShipmentOffer.Reject` | pkg/models/shipment_offer.go:69-77 | an unanswered offer becomes rejected with its reason, an answered one is refused unchanged |
| `AwardQueues.QueueRunIsARun` | pkg/awardqueue/awardqueue.go:269-296 | a whole run of the queue is a run of protocol steps, so everything proved of protocol runs holds of it |
| `AwardQueues.AwardQueue.Run` | pkg/awardqueue/awardqueue.go:269-296 | a run first bands every group that needs it, by score and fair shares and nothing else, and then attempts every shipment without an offer, in one transaction; without the lock nothing changes; the queue always has its own connection back |
| `AwardQueues.AwardQueue.AttemptShipmentOffer` | pkg/awardqueue/awardqueue.go:47-151 | the imperative attempt leaves exactly the tables, and returns exactly the result, of the attempt function, in every error case |
| `Columns.AttemptAddsFittingOffers` | pkg/awardqueue/awardqueue.go:75-144 | every offer an attempt adds goes to a performance of the shipment's list, of an enrolled provider, in a band from 1 to 4, whose period holds the shipment's book date and whose cycle holds its requested pickup date; it names that provider and is administrative exactly if there is a blackout of that provider for the shipment, as are all but the last |
| `Columns.AttemptOutcome` | pkg/awardqueue/awardqueue.go:47-151 | which error or success an attempt ends in, each as an if and only if over the shipment's record, the lists, the performances and the last offer added; in particular no provider is found exactly if no performance is as above |
| `Columns.AttemptLeavesTheRest` | pkg/awardqueue/awardqueue.go:106-121 | each count rises by exactly the number of offers added for that performance, the shipment becomes awarded on success, and nothing else changes |
| `Columns.EveryOfferIsInTurn` | pkg/awardqueue/awardqueue.go:86-144 | each offer of an attempt goes to whoever is next, by the columns, for the shipment's own list and dates once the attempt's earlier offers are counted |
| `AwardQueues.AwardQueue.OfferLoop` | pkg/awardqueue/awardqueue.go:81-144 | the loop with its counter, its first performance and its flag computes the visits of the declarative run, and terminates |
| `AwardQueues.AwardQueue.OfferOnce` | pkg/awardqueue/awardqueue.go:86-144 | one pass makes one offer, raises one count, awards unless the offer is administrative, and brings the loop closer to its end |
| `AwardQueues.AwardQueue.ShipmentWithinBlackoutDates` | pkg/awardqueue/awardqueue.go:258-266 | true exactly for providers with a blackout that covers the shipment |
| `AwardQueues.AwardQueue.AssignShipments` | pkg/awardqueue/awardqueue.go:155-179 | attempts each shipment that had no offer when the pass began, once, whatever the outcome of the others |
| `AwardQueues.AwardQueue.AssignPerformanceBandsForGroup` | pkg/awardqueue/awardqueue.go:223-253 | the nested loops hand out bands along the score-ordered list by fair shares, with an index that stays in range and ends with all of the list used |
| `AwardQueues.AwardQueue.AssignPerformanceBands` | pkg/awardqueue/awardqueue.go:201-216 | every group with an enrolled performance without a band ends with bands along its list, best score first, by fair shares; nothing else changes |
| `BandColumns.BandingInColumns` | pkg/awardqueue/awardqueue.go:186-253 | by the columns: a row changes only if its provider is enrolled, its score is positive and some enrolled performance with the same list, period and cycle has no band; then it ends in a band from 1 to 4, never in a worse one than a row of the group with a lower score, and each band holds a quarter of the group's ranked rows, the better bands one more while the remainder lasts |
| `Banding.UnbandedAfterwardsIff` | pkg/awardqueue/awardqueue.go:199-216 | after banding an enrolled performance is without a band exactly if it had none and its score is not above the minimum; all others that had none are in one of the four bands |
| `Banding.ZeroScoreIsLeftOut` | pkg/awardqueue/awardqueue.go:27-30 | a group of one performance with score 0 is left as it is and needs banding again |
| `AwardQueues.AwardQueue.FetchUnbandedTSPPerformanceGroups` | pkg/models/transportation_service_provider_performance.go:223-246 | exactly the groups with an enrolled performance without a band, each once |
| `Bands.GetTSPsPerBand` | pkg/awardqueue/awardqueue.go:186-197 | four shares that add up to the count, none larger than a better one, differing by at most one |
| `Bands.FairSharesAreUnique` | pkg/awardqueue/awardqueue.go:181-197 | no other way of sharing out the places has those properties |
| `Bands.BandAtIff` | pkg/awardqueue/awardqueue.go:239-251 | a position of the list is in a band exactly when it lies in that band's stretch of the list |
| `Bands.BandsFollowTheList` | pkg/awardqueue/awardqueue.go:239-251 | every listed performance ends in one band from 1 to 4, and bands never improve along the list |
| `Bands.AssignedListed` | pkg/awardqueue/awardqueue.go:239-251 | a listed performance gets the band of its position and nothing else of it changes |
| `Bands.AssignedOthers` | pkg/awardqueue/awardqueue.go:239-251 | performances that are not listed are left alone |
| `Bands.FetchForBanding` | pkg/models/transportation_service_provider_performance.go:203-219 | all enrolled performances of the group above the minimum score, each once, best score first |
| `Database.Connection.GatherNextEligibleTSPPerformances` | pkg/models/transportation_service_provider_performance.go:134-156 | the loop over the bands gathers the front runner of every band that has one |
| `Database.Connection.SelectNextTSPPerformance` | pkg/models/transportation_service_provider_performance.go:169-190 | the walk that carries the rounds of the previous band picks the band of the specification |
| `Database.Connection.NextEligibleTSPPerformance` | pkg/models/transportation_service_provider_performance.go:158-166 | the performance next in line, or none if nobody competes |
| `Database.Connection.IncrementTSPPerformanceOfferCount` | pkg/models/transportation_service_provider_performance.go:271-284 | exactly one count rises, by one; a row that is not there is an error |
| `Database.Connection.CreateShipmentOffer` | pkg/models/shipment_offer.go:81-96 | one unanswered offer is added at the end |
| `Database.Connection.AwardShipment` | pkg/models/shipment.go:721-739 | a submitted shipment becomes awarded; for any other, or one that is not there, the call fails and changes nothing |
| `Database.Connection.FetchUnofferedShipments` | pkg/models/shipment.go:563-575 | exactly the submitted shipments without any offer, each once |
| `Database.Connection.AcceptShipmentForTSP` | pkg/models/shipment.go:742-783 | shipment and offer change together, or neither does, with each refusal told apart |
| `Columns.AcceptanceIff` | pkg/models/shipment.go:742-783 | an acceptance goes through exactly if the shipment is awarded and the provider has exactly one offer for it, not yet answered; then only that offer and the shipment's status change |
| `Shipments.DatesTellStage` | pkg/models/shipment.go:221-324 | over every run of events the dates on a record tell its stage, so the second guard of Approve never refuses on its own, and only a rejection moves a record back |
| `Shipments.DatesAreOfEvents` | pkg/models/shipment.go:224-312 | over every run from a draft without dates: book date and submit date are the time and the given date of the submission that found a draft; approve, pickup and delivery date are those of the approval, transport and delivery that found the shipment accepted, approved and in transit; the pack date is that of the last packing that found it approved; and without such an event there is no such date |
| `Shipments.Shipment.Submit` | pkg/models/shipment.go:225-234 | a draft is submitted, with the current time as book date and the given date as submit date; anything else is refused unchanged |
| `Shipments.Shipment.Award` | pkg/models/shipment.go:237-243 | submitted to awarded; anything else is refused unchanged |
| `Shipments.Shipment.Accept` | pkg/models/shipment.go:246-252 | awarded to accepted; anything else is refused unchanged |
| `Shipments.Shipment.Reject` | pkg/models/shipment.go:255-261 | awarded back to submitted; anything else is refused unchanged |
| `Shipments.Shipment.Approve` | pkg/models/shipment.go:264-275 | accepted to approved with its date; refused unchanged otherwise or if there is an approve date |
| `Shipments.Shipment.Transport` | pkg/models/shipment.go:278-285 | approved to in transit with the pickup date; anything else is refused unchanged |
| `Shipments.Shipment.Pack` | pkg/models/shipment.go:289-295 | an approved shipment gets its pack date; anything else is refused unchanged |
| `Shipments.Shipment.Deliver` | pkg/models/shipment.go:298-324 | in transit to delivered, and with it exactly the storage that is in SIT at the destination; no storage ever refuses half way |
| `Shipments.DeliverSit` | pkg/models/storage_in_transit.go:194-205 | storage in SIT at the destination is delivered with its out date; any other storage is a conflict |
| `Shipments.Shipment.FillOriginalDates` | pkg/models/shipment.go:340-353 | under its guard a save takes the missing original dates from the plan of the move dates, and changes nothing else |
| `Shipments.FillingDates` | pkg/models/shipment.go:340-353 | given pickup date and durations, both original dates are set after a save if and only if not (pack date set, delivery date missing) before it; a pack date filled in is the workday from which there are as many workdays before the requested pickup as packing takes, a delivery date the first workday after the transit days that follow the first workday from the requested pickup on; nothing else changes |
| `Shipments.DeliveryDateStaysUnset` | pkg/models/shipment.go:340-353 | a record with durations and pickup date whose pack date is set keeps its delivery date unset after a save |
| `Dates.CreateFutureMoveDates` | pkg/dates/calculators.go:11-23 | the first n qualifying days from the start on; terminates on a calendar with bounded gaps |
| `Dates.CreatePastMoveDates` | pkg/dates/calculators.go:26-39 | the last n qualifying days up to the start, filled into an array from its end; terminates likewise |
| `Dates.CreateValidDatesBetweenTwoDates` | pkg/dates/calculators.go:42-61 | the qualifying days of the half-open range; an error exactly for an end not after the start that is not allowed |
| `Dates.NextWorkday` | pkg/dates/calendar.go:19-26 | the one-element forward list from the following day |
| `Dates.NextNonWorkday` | pkg/dates/calendar.go:29-36 | a later day that is no workday, with nothing but workdays before it |
| `Dates.RangeMembers` | pkg/dates/calculators.go:42-61 | a range holds exactly its qualifying days, in ascending order |
| `Dates.RangeConcatenates` | pkg/dates/calculators.go:42-61 | ranges concatenate at any midpoint |
| `Dates.ForwardListIsItsRange` | pkg/dates/calculators.go:11-61 | the half-open range from a forward list's first day to the day after its last is the list |
| `Dates.PastInvertsFuture` | pkg/dates/calculators.go:11-39 | going back n days from the last day of a forward list gives that list |
| `Dates.FutureInvertsPast` | pkg/dates/calculators.go:11-39 | going forward n days from the first day of a backward list gives that list |
| `Dates.ForwardIsUnique` | pkg/dates/calculators.go:11-23 | the account of a forward list fixes it completely |
| `Dates.BackwardIsUnique` | pkg/dates/calculators.go:26-39 | the account of a backward list fixes it completely |
| `Dates.MoveDatesSummary.CalculateMoveDates` | pkg/dates/move_dates.go:21-41 | the summary holds a plan: pack days backward from the day before the move, pickup, transit, delivery; report days stay |
| `Dates.PlanDays` | pkg/dates/move_dates.go:21-41 | pack days are exactly the workdays from the first of them to the move date; pickup is the first workday from the move date; transit days are consecutive; delivery is the first workday after them |
| `Dates.PlanWorkdays` | pkg/dates/move_dates.go:21-41 | by the calendar alone: pickup is the first workday from the move date, delivery the first workday after the transit days, packing begins on the workday from which there are as many workdays before the move date as it takes |
| `Dates.PlanInOrder` | pkg/dates/move_dates.go:21-41 | all days of a plan follow one another strictly |
| `Dates.DeliveryIsMonotone` | pkg/dates/move_dates.go:21-41 | a later move date or longer transit never brings delivery forward |
| `Dates.PlanIsUnique` | pkg/dates/move_dates.go:21-41 | the plan is a function of move date and durations |
| `GblNumbers.FormatIsInjective` | pkg/models/shipment.go:554-557 | two printed numbers within the counter's range are equal only for the same office and the same sequence number, unless the office codes clash |
| `GblNumbers.CollisionIffClash` | pkg/models/shipment.go:554-557 | two different offices can print the same number within the 32-bit counter exactly when one code continues the other with a 7 and digits without leading zero that a sequence number in range can begin with; codes of equal length never do |
| `GblNumbers.ShortestExtension` | pkg/models/shipment.go:554-557 | an office whose code is another's with a 7 at the end clashes with it: number 7000001 of the one is number 1 of the other |
| `GblNumbers.SameOffice` | pkg/models/shipment.go:554-557 | one office never prints two sequence numbers alike, also past six digits |
| `GblNumbers.ValueOfDigits` | pkg/models/shipment.go:554-557 | reading the decimal form gives the number back, and it has no leading zero |
| `GblNumbers.DigitsOfValue` | pkg/models/shipment.go:554-557 | printing the value of digits without leading zero gives the digits back |
| `GblAssignment.NumbersStayDistinct` | pkg/models/shipment.go:528-560 | over every sequence of transactions, committed or rolled back, with stale copies or fresh ones, no two saved shipments carry the same number and every number was given out by a counter, as long as the office codes in use do not clash |
| `GblAssignment.DistinctForeverIff` | pkg/models/shipment.go:528-560 | the numbers of a set of offices are different over every run if and only if no two of the codes clash |
| `GblAssignment.ClashExample` | pkg/models/shipment.go:528-560 | for offices KKFA and KKFA7 there are transactions after which two shipments carry the same number |
| `GblAssignment.CommittedNumbers` | pkg/models/move.go:628-671 | counters never fall; shipments outside a committed batch keep their numbers, and those in it end with a number not given out before |
| `GblAssignment.NumbersKeptIff` | pkg/models/shipment.go:533-536 | a committed transaction keeps every saved number if and only if none of its shipments had one in the table already |
| `GblAssignment.StaleCopyExample` | pkg/models/shipment.go:533-536 | saving the same copy in two transactions changes the number of its shipment |
| `GblAssignment.CommitsIff` | pkg/models/move.go:628-671 | a transaction commits exactly when every copy has a source office and no number, every save goes through, and no counter runs past the column's range |
| `GblAssignment.Connection.NextSequenceNumber` | pkg/models/shipment.go:538-552 | the upsert gives 1 to a new office and one more than the last to a known one, and fails without change past the 32-bit range |
| `GblAssignment.GblShipment.AssignGBLNumber` | pkg/models/shipment.go:528-560 | the shipment gets the printed next number of its office, or one of the errors with nothing changed |
| `GblAssignment.SaveShipments` | pkg/models/move.go:628-671 | all of the batch is numbered and saved, or the tables are as before and the first error is returned |
| `Moves.Move.Submit` | pkg/models/move.go:117-150 | succeeds exactly when the move, all procured moves, all shipments and all reimbursements are drafts and no reimbursement is shared; then every part has moved on with its date set, shipments with the current time as book date and the given date as submit date; a refusal half way leaves the move submitted, and later parts untouched |
| `Moves.SharedReimbursementExample` | pkg/models/move.go:117-150 | a move of two drafts that share a new reimbursement is refused, left submitted, and refused again |
| `Moves.SubmitPpms` | pkg/models/move.go:124-131 | stops at the first procured move that can not be submitted: those before it are submitted, those from it on are unchanged |
| `Moves.SubmitShipments` | pkg/models/move.go:133-139 | the same for shipments |
| `Moves.RequestAdvances` | pkg/models/move.go:141-148 | stops at the first reimbursement that is no draft or is shared with an earlier move; those before it are requested, all others unchanged |
| `Moves.AdvancesReadyIff` | pkg/models/move.go:141-148 | the walk gets through exactly when all reimbursements are drafts and pairwise distinct |
| `Moves.Move.Cancel` | pkg/models/move.go:163-192 | succeeds exactly when the move and its orders are not cancelled and every procured move can be; the move ends cancelled in any case, orders untouched if a procured move refuses |
| `Lifecycles.PpmsAreCompletedInOrder` | pkg/models/personally_procured_move.go:98-157 | over every run the dates are those of a submission and an approval in it and tell how far a procured move has come, so the date guards of Submit and Approve never refuse on their own; a completed one was approved, then asked for payment, then completed |
| `Lifecycles.PpmsEnd` | pkg/models/personally_procured_move.go:98-157 | completed and cancelled procured moves are final over every run |
| `Lifecycles.ClaimsArePaidInOrder` | pkg/models/reimbursement.go:59-98 | over every run the requested date is set exactly beyond draft, to the date of a request; an approved reimbursement was requested first, and a paid one approved after that |
| `Lifecycles.ClaimsEnd` | pkg/models/reimbursement.go:59-98 | rejected and paid reimbursements are final, and a requested date once set stays |
| `Moves.PersonallyProcuredMove.Submit` | pkg/models/personally_procured_move.go:98-110 | a draft without submit date is submitted; anything else is refused unchanged |
| `Moves.PersonallyProcuredMove.Approve` | pkg/models/personally_procured_move.go:113-125 | draft or submitted without approve date is approved; anything else is refused unchanged |
| `Moves.PersonallyProcuredMove.RequestPayment` | pkg/models/personally_procured_move.go:128-135 | approved, or payment requested already, becomes payment requested; anything else is refused |
| `Moves.PersonallyProcuredMove.Complete` | pkg/models/personally_procured_move.go:138-145 | only a requested payment is completed |
| `Moves.PersonallyProcuredMove.Cancel` | pkg/models/personally_procured_move.go:148-157 | everything but a completed or cancelled one is cancelled |
| `Moves.Reimbursement.Request` | pkg/models/reimbursement.go:59-68 | a draft is requested with its date; anything else is refused unchanged |
| `Moves.Reimbursement.Approve` | pkg/models/reimbursement.go:71-78 | only a requested one is approved |
| `Moves.Reimbursement.Reject` | pkg/models/reimbursement.go:81-88 | only a requested one is rejected |
| `Moves.Reimbursement.Pay` | pkg/models/reimbursement.go:91-98 | only an approved one is paid |
| `Moves.Order.Cancel` | pkg/models/order.go:113-120 | orders end cancelled; cancelling twice is an error |
| `Certificates.ParseInvertsPrint` | pkg/cli/certs.go:74-95 | any list of bodies, printed as blocks joined by newlines, is parsed back exactly if and only if no body holds an end label after its first character, each is trimmed or one white-space character, and only the last is blank, as a newline |
| `Certificates.TrimmedPrintIsParsed` | pkg/cli/certs.go:74-95 | a corollary: for trimmed, non-empty bodies the end labels alone decide |
| `Certificates.ParseIsStableIff` | pkg/certs/certs.go:41 | whatever the text, what was parsed once, joined again and parsed again comes out the same if and only if no certificate was blank, except possibly the last one as a newline |
| `Certificates.BlankCertificateExample` | pkg/cli/certs.go:74-95 | a space between the labels is read as a certificate, and its printed form as a newline |
| `Certificates.BodiesAreClean` | pkg/cli/certs.go:80-95 | from any text, every body returned holds no end label after its first character and is trimmed or a single white-space character |
| `Certificates.BodiesAreLeftmost` | pkg/cli/certs.go:80-81 | from any text the bodies are those of matches in order and without overlap, and no match begins outside of them |
| `Certificates.WhiteSpaceIsTrimmed` | pkg/cli/certs.go:80-81 | spaces, tabs, form feeds and line ends of either kind around a body are not part of it, as long as there are some before the end label |
| `Certificates.MatchIsPreferred` | pkg/cli/certs.go:80-81 | the matcher finds a match whenever the pattern fits, and then the preferred one: most white space first, then the shortest body |
| `Certificates.MatchFits` | pkg/cli/certs.go:80-81 | what the matcher finds fits the pattern |
| `Certificates.ParseCertificates` | pkg/cli/certs.go:74-95 | for each body, in order, the begin label, a newline, the body, a newline and the end label |
| `LogFilters.ScanInvertsPrint` | cmd/ecs-service-logs/main.go:663-685 | a printed key, operator and value is read back as that triple if and only if the key holds nothing that reads as an operator and the value does not run into a strict comparison |
| `LogFilters.ScanSplits` | cmd/ecs-service-logs/main.go:663-685 | key, operator and value read from an argument concatenate to the argument, and the key is not empty |
| `LogFilters.PanicIff` | cmd/ecs-service-logs/main.go:665-683 | the scan indexes past the end exactly when the argument ends in an exclamation mark or a comparison sign and nothing stopped the scan before |
| `LogFilters.PanicExample` | cmd/ecs-service-logs/main.go:665-683 | the argument a! makes the scan index past its end |
| `LogFilters.ScanArgument` | cmd/ecs-service-logs/main.go:665-683 | the scanning loop returns the outcome of its specification, the index past the end included |
| `LogFilters.CollectFilters` | cmd/ecs-service-logs/main.go:663-685 | all arguments are added to the three groups of filters in order |
| `LogFilters.CollectInvertsPrint` | cmd/ecs-service-logs/main.go:663-685 | a command line printed from safe filters is collected into exactly those filters, later equalities of a key winning |
| `LogFilters.OperatorsRead` | cmd/ecs-service-logs/main.go:665-683 | for keys without operator characters each of the six operators is read as itself |
| `LogFilters.GroupsInOrder` | cmd/ecs-service-logs/main.go:663-685 | inverse filters, and the comparisons of each operator, are exactly those of the command line in its order, after those there were |
| `LogFilters.LastEqualWins` | cmd/ecs-service-logs/main.go:672-674 | of several equalities for a key the last one counts, and other keys keep what they had |
| `LogPrinter.ShowLogs` | cmd/ecs-service-logs/main.go:718-776 | prints exactly the first events of all streams up to a positive limit, all of them otherwise, however the service splits pages |
| `LogPrinter.PrintJob` | cmd/ecs-service-logs/main.go:727-769 | the same for one stream after what has been printed, and the paging loop terminates |
| `LogPrinter.PageLimit` | cmd/ecs-service-logs/main.go:734-740 | a limit is requested exactly when a page size is set, is at least one, and never exceeds the page size or what is left to print |
| `LogPrinter.SelectStreams` | cmd/ecs-service-logs/main.go:583-627 | the job list is exactly the first matching streams up to a positive maximum, however they are paged |
| `LogPrinter.MatchingPositions` | cmd/ecs-service-logs/main.go:596-601 | the task identifiers are what follows the prefix in exactly the stream names that begin with it, in order |
| `LineItems.RepricesIff` | pkg/models/shipment.go:853-921 | deleting the base lines and creating one new line for each base code succeeds if and only if no base line of the shipment was invoiced |
| `LineItems.RepricedIsVerified` | pkg/models/shipment_line_item.go:276-297 | after it, verification accepts the shipment's lines in whatever order they are listed; every other line is still there unchanged and only the new lines were added |
| `LineItems.VerifiedIffOneEach` | pkg/models/shipment_line_item.go:276-297 | verification accepts a listing exactly when the table has one base line of the shipment for each code |
| `LineItems.VerifyBaseShipmentLineItems` | pkg/models/shipment_line_item.go:278-297 | reports a base code and its count exactly when some count is not one |
| `LineItems.CountInFields` | pkg/models/shipment_line_item.go:278-290 | for a base code the count is the number of lines with that code that need no pre-approval |
| `LineItems.FindBaseShipmentLineItem` | pkg/models/shipment_line_item.go:256-263 | true exactly for the base codes |
| `LineItems.CreatedAllIff` | pkg/models/shipment.go:906-921 | lines for different tariff items can all be created exactly when no tariff item is taken |
| `LineItems.CreatedAllAdds` | pkg/models/shipment.go:875-883 | when they can, the table keeps all its lines and gains exactly the new ones |
| `LineItems.Shipment.DeleteBaseShipmentLineItems` | pkg/models/shipment.go:983-1020 | exactly the lines that need pre-approval, are invoiced or have another code stay with the shipment, and afterwards it lists exactly what the table has for it |
| `LineItems.KeptIff` | pkg/models/shipment.go:988-1009 | a line survives if and only if it was there and needs pre-approval, or is invoiced, or has a code that is no base code |
| `LineItems.KeptInOrder` | pkg/models/shipment.go:988-1009 | the survivors are the old list at strictly ascending positions |
| `LineItems.KeptIsListed` | pkg/models/shipment.go:983-1020 | after the deletion the shipment holds exactly what the table has for it |
| `LineItems.DeletedIff` | pkg/models/shipment.go:988-1004 | a row leaves the table exactly if it is a line of the shipment without pre-approval and invoice and with a base code; the others stay as they are |
| `LineItems.Shipment.CreateUniqueShipmentLineItem` | pkg/models/shipment.go:906-921 | a line is created unless the shipment has one for the same tariff item |
| `LineItems.Shipment.SaveBaseLines` | pkg/models/shipment.go:875-883 | all of the new lines or none |
| `Accessorials.BillStaysWithinEstimate` | pkg/models/robust_accessorial_line_item.go:190-223 | over every run of robust updates and approvals of an item created by a robust request, the billed quantity is 0 without an actual amount, and otherwise a hundred times the smaller of actual and estimate in cents; it is never above the estimate, and no update meets a missing estimate |
| `Accessorials.TermsInEveryRun` | pkg/models/robust_accessorial_line_item.go:195-211 | over every such run description, reason, estimate, tariff item and location are those of one and the same request: the creation, or an update that found the item not approved |
| `Accessorials.UpdateKeepsBillIff` | pkg/models/robust_accessorial_line_item.go:181-188 | an update keeps the bill within the estimate exactly when it is robust or names the very quantity billed already |
| `Accessorials.PlainQuantityExample` | pkg/models/robust_accessorial_line_item.go:181-188 | an approved item with an estimate of a dollar ends billing a hundred dollars after an update with a plain quantity |
| `Accessorials.ApprovedTermsAreFrozen` | pkg/models/shipment.go:491-503 | over any run of updates, robust or not, an approved item keeps estimate, reason, description, location, notes and second quantity |
| `Accessorials.ShipmentLineItem.UpsertItemCode35ADependency` | pkg/models/robust_accessorial_line_item.go:191-223 | an approved item takes only a new actual amount, any other takes description, reason, estimate and actual amount from the request or is refused if one of the first three is missing; the billed quantity is 0 or a hundred times the smaller amount in cents; nothing else changes |
| `Accessorials.ShipmentLineItem.UpdateShipmentLineItem` | pkg/models/shipment.go:476-523 | the updated item of the specification, or its error; once approved only amounts to bill change, before that tariff item, location, second quantity and notes are taken from the request |
| `Accessorials.ShipmentLineItem.Approve` | pkg/models/shipment_line_item.go:229-239 | submitted or conditionally approved becomes approved, keeping the first approval date; anything else is refused unchanged |
| `Accessorials.ShipmentLineItem.ConditionallyApprove` | pkg/models/shipment_line_item.go:242-252 | submitted or approved becomes conditionally approved, keeping the first approval date; anything else is refused unchanged |
| `Expenses.RowsMissOnlyStorage` | pkg/models/shipment_summary_worksheet.go:87-108 | each total shown exceeds its rows by exactly the storage expenses, which have no row |
| `Expenses.TotalsConserveMoney` | pkg/models/shipment_summary_worksheet.go:540-546 | the two grand totals together are the sum of all documents |
| `Expenses.SubTotalsAreTheirs` | pkg/models/shipment_summary_worksheet.go:528-554 | what is kept under the name of a type and way of payment is the money of just those documents |
| `Expenses.OrderDoesNotMatter` | pkg/models/shipment_summary_worksheet.go:528-538 | every total is the same for any order of the documents |
| `Expenses.KeyIsInjective` | pkg/models/shipment_summary_worksheet.go:548-554 | different types or ways of payment are never kept under the same name |
| `Expenses.UnformatInverts` | pkg/models/shipment_summary_worksheet.go:646-649 | the printed form of a type's name determines the name |
| `Expenses.SuffixTells` | pkg/models/shipment_summary_worksheet.go:540-546 | the suffix test on a name tells the way of payment, whatever the type is called |
| `Expenses.SubTotalExpenses` | pkg/models/shipment_summary_worksheet.go:528-538 | under every name stands the sum of what the documents add to it |
| `Expenses.AddToGrandTotal` | pkg/models/shipment_summary_worksheet.go:540-546 | the amount goes to the grand total of its way of payment and nowhere else |

## Left out

- SQL: every query is a look-up or filter over maps and sequences; rows that tie completely in the order of a query keep table order, which Postgres does not promise.
- Postgres advisory locks and concurrent transactions: queue runs are serialised, and each committed operation is one step.
- Failing writes: rows that reach the award queue have been validated, so its offer, count and award writes succeed; with writes that keep failing the loop would not end.
- Deleted providers: every performance's provider exists, as the foreign key demands; the branch of the offer loop for a provider that is not found is not modelled.
- Blackout dates: whether a blackout covers a shipment (dates, market, channel, office) is a relation between providers and shipments that edits change and the queue reads; the query is not part of this model. The list of performance rows does not change during a run.
- AcceptShipmentForTSP: fetch and save are one step, and the destination address saved in between is not modelled.
- AcceptedOfferIsRealIff: says whose offer is marked, not that an administrative acceptance is refused, because the code accepts it.
- FillOriginalDates: the traffic distribution list that a save determines first, and the write itself, are not modelled; the durations it requires to be positive are so because of the record's validation, which the source runs before writing.
- FetchShipment, FetchMove and other session and authorization checks: no state of their own.
- Times of day and time zones: dates are whole days, so equality and order of times are those of days.
- NewUSCalendar: the calendar is any predicate with a bounded distance between workdays; the table of federal holidays is not part of this model.
- NextWorkday: requires that a later workday exists, as the loop has no other way to end; the same holds for NextNonWorkday.
- CalculateMoveDates: requires positive transit days, because the source indexes the last transit day; it is called with validated durations.
- Floating point: scores are reals, rounds are exact, a quarter of the count rounded down is integer division, and money is in cents.
- OffersPerQualityBand: one offer for each band, as in the source during the pilot; other shares are not covered by the rotation results.
- NumbersStayDistinct: for office codes that do not clash, which codes of equal length never do and without which it fails; that codes have four letters is not enforced by the source.
- AlwaysEndsFreeIff: for providers that compete with one performance each; nothing in the source enforces it, and the general case is AlwaysEndsFreeIffDue, whose condition is the closed form of the turns.
- BalancedForEver: for runs that leave the bands of the contest's distribution list as they are, because new bands reorder the competitors and so can break the balance.
- UpdateShipmentLineItem: for requests with item code 35A; how other codes set the quantity is not modelled.
- SaveShipments: the look-ups of orders, service member and offices are folded into the office found for a shipment, if any; the other saves of the transaction are not modelled.
- Move.Approve, Order.Submit and the constructors of draft reimbursements: one assignment each.
- ParseCertificates: works on characters; the matcher is a model of the leftmost-first semantics of the pattern, not of the regular expression engine.
- CollectFilters: starts from the filters the command line flags set; the filter pattern printed from them, and jobs listed for running or stopped tasks, are not modelled.
- ShowLogs: the service is any split of a stream into pages that honours the requested limit; its errors end the command and are not modelled.
- UpsertItemCode35ADependency: when an actual amount meets a missing estimate the source dereferences a null pointer, which the model reports as an error; item codes 105, 125 and 226A, and dimension and address rows, are not modelled.
- DeleteBaseShipmentLineItems: the save of the shipment that ends the transaction succeeds; general line items and the distance of SaveShipmentAndPricingInfo are not modelled.
- RepricesIff: new lines have identifiers that are not in use, and there is one tariff item for each code, as the price list has it.
- FormatEnum: letters outside ASCII are left as they are; FormatDollars and the decoding of totals into the worksheet's fields by name are not modelled.
- TotalsConserveMoney: for names of capitals and single underscores other than TOTAL, as all types in the source are; a type called TOTAL would be added to its grand total twice.
- HTTP handlers, form formatting, entitlement tables, client code, migrations, and network clients: little state, or finite facts.
