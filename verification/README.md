# Verified models of MOTIS

MOTIS is an intermodal travel information system. This project models the parts of it in which a silent mistake would
be hardest to notice, and proves what these parts promise. Everything is stated over all inputs, all runs or all
reachable states; `dafny verify dfyconfig.toml` checks the whole project.

**Delay probabilities** (`modules/reliability`). A train run carries one probability distribution per event, stored as
a trimmed cumulative array. `Distributions` models the array and its queries, `Departure` and `Interchange` the
three-phase loops for departures, `TravelTimes` and `Arrival` the convolution with travel times, `PublicTransport`
whole rides. The program asserts at run time that mass is conserved or never grows. `DepartureProperties` and
`InterchangeProperties` prove how far this is true: over exact reals the partial sums are products of cumulative
functions (a discrete product rule and summation by parts, in `WaitingAlgebra`), and the one thing that can disturb
them is the trimming of cut feeders, whose effect is given exactly. *Cut cleanly* means that trimming a cut feeder
drops only zeros. `DepartureTimes`, `InterchangeTimes`, `ArrivalTimes` and `RideTimes` say at which delay the mass is,
in the terms of the schedule.

**Connection graphs** (`modules/reliability/src/search`, `rating`). A base journey is split at its interchanges, and
alternatives are inserted at its stops. `EarlyWalks`, `JourneySplit` and `JourneyChanges` follow the journeys,
`ConnectionGraph*` the mass of the traveller through every graph that can be built: a ledger says that no stop passes
on more than it receives. `GraphRoutes` shows that every such graph still offers the journeys it was built from,
`RatedGraph` what each of its alternatives is rated with, and `LateWalks` which insertion breaks the ledger.
`ArrivalMerge` merges the arrivals at the destination, and `MergedArrival` says when they arrive.

**Realtime updates**. `DependencyGraph` proves the dependencies between events acyclic, `RealtimeUpdate` that the
update loop ends on every initial queue, `RealtimeSignificance` what it leaves out. `RealtimeConsistency` and
`RealtimeReports` prove when it leaves every distribution current, `RealtimeStaleness` and `RealtimeDelays` that it
otherwise does not.

**Foot graph closure** (`base/loader/src/build_footpaths.cc`). `FootComponents` to `FootClosure`: labelling, the
sorted merge into a matrix, the all-pairs algorithm, the shortcut for two stations, and the lists that the stations
end up with.

**Realtime message store** (`modules/ris/src/ris.cc`). `RisCodec` to `RisForward`: a length-prefixed byte log per
timestamp, an index by day, purging, and a clock whose steps compose.

**Service expansion** (`base/loader/src/graph_builder.cc`). `ServiceExpansion` and `ServiceConnections`: local times
become universal times, with one hour of correction where daylight saving makes a schedule inconsistent, and traffic
days with the same times are grouped. `ServiceLocalTimes` is the way back to the timetable.

Conventions: probabilities are reals and compared exactly, except for the tolerance in the rounding correction of
arrivals, which is kept. Times are integers in minutes, in the message store seconds. Objects that the program changes
in place are classes whose methods are proved against functions; the theorems are about these functions.

Where code and expectation differ, the model follows the code:

- A departure can miss the mass of its train by more than the tolerance of the program's own assertion
  (`SmallMassCanBeLost`). The assertion holds exactly if the lost masses are together below that tolerance
  (`AssertionIff`); nothing at all is lost exactly under the condition of `DepartureConservesIff`.
- The travel times of the latest known delay are never used; the ones before them are repeated instead
  (`LatestDelayIsNotDelivered`, exact condition `AsMeantIff`).
- A walk inserted after other alternatives is handed the whole arriving mass, so that more mass can arrive than has
  started (`WalkBreaksBalance`). `LateWalkDelivers` says by how much, for every graph; after a run without walks this
  is harmless exactly under the condition of `LateWalkKeepsMassIff`.
- An update that moves mass behind the smaller last minute, and with it changes the mass, is not significant
  (`HiddenChange`, exact condition `InsignificantIsCloseIff`).
- A walk can still end early after early walks have been moved, if another walk follows it directly
  (`EarlyWalkIsLeft`, exact condition `NoEarlyWalkIff`).
- A departure in the minute in which its train has departed from the stop before can be skipped as already updated, if
  a feeder has queued it too early (`HasteGoesStale`, exact condition `AlwaysCurrentIff`).
- In a directed foot graph a later search relabels stations, and the closure is wrong unless every connected component
  has a station that reaches all of it (`RelabellingSplitsComponents`, `TransitivizeFootpaths`).
- Of parallel footpaths the longest is kept (`ListedIsQuickestIff`), and between two stations the check of the
  shortcut fails on them (`TransitivizeFootpaths`).
- A purge does nothing if no message is stored at or after the given time (`PurgeDeletesIff`).
- If the last schedule event is on a day boundary, its day is not looked up, although the comment on the index
  promises every message that touches the day (`BoundaryHides`, exact condition `WrittenIsPublishedIff`).
- Forwarding back repeats messages (`RunRepeatsNothingIff`).
- A message of 65536 bytes or more does not survive the store (`RoundTripIff`).

## Model

| member | source | states |
|---|---|---|
| `Distributions.ProbabilityDistribution.Init` | modules/reliability/src/distributions/probability_distribution.cc:12-51 | the object holds the trimmed cumulative form of the values; without values it keeps what it held |
| `Distributions.ProbabilityDistribution.InitOnePoint` | modules/reliability/src/distributions/probability_distribution.cc:60-64 | the object holds all its mass at one minute |
| `Distributions.TrimKeepsMass` | modules/reliability/src/distributions/probability_distribution.cc:12-51 | whatever is trimmed, the total is exactly the sum of the input values |
| `Distributions.TrimError` | modules/reliability/src/distributions/probability_distribution.cc:12-51 | for every non-negative input and every minute, the cumulative query differs from the untrimmed one by at most the mass dropped on the left or right, which is below the threshold per dropped value; the result is a valid distribution |
| `Distributions.TrimExactIff` | modules/reliability/src/distributions/probability_distribution.cc:12-51 | no cumulative query notices the trimming if and only if only zeros are dropped |
| `Distributions.InitValid` | modules/reliability/src/distributions/probability_distribution.cc:12-51 | non-negative values give a non-decreasing, non-negative cumulative array |
| `Distributions.EqualIsIncrement` | modules/reliability/src/distributions/probability_distribution.cc:75-97 | the point query is the difference of the cumulative queries at a minute and the one before |
| `Distributions.QueriesSplitMass` | modules/reliability/src/distributions/probability_distribution.cc:70-121 | at every minute, smaller-or-equal plus greater, and smaller plus greater-or-equal, are the total |
| `Distributions.ProbabilitiesTotal` | modules/reliability/src/distributions/probability_distribution.cc:86-121 | the point queries of all minutes sum to the total |
| `Distributions.ValidQueries` | modules/reliability/src/distributions/probability_distribution.cc:70-121 | queries of a valid distribution are monotone, non-negative and bounded by the total |
| `Distributions.InitQueries` | modules/reliability/src/distributions/probability_distribution.cc:12-73 | for non-negative values the query at a minute is the sum of the values up to it, up to the mass dropped on either side, and exactly that if trimming drops only zeros |
| `Departure.DepartureDataValid` | modules/reliability/src/computation/data_departure.cc:20-59 | the constructed data meet the bounds the theorems rest on: every feeder's interval ends within the longest waiting time |
| `Departure.FeedersValid` | modules/reliability/src/computation/data_departure.cc:122-155 | every feeder's latest feasible arrival plus transfer time is at most the scheduled departure plus the longest waiting time |
| `Departure.DataDeparture.constructor` | modules/reliability/src/computation/data_departure.cc:20-59 | the object holds the data computed from train, message and predecessors |
| `Departure.DataDeparture.InitFeederInfo` | modules/reliability/src/computation/data_departure.cc:102-155 | all predecessors except the train's own arrival become feeders, and the longest waiting time wins |
| `Departure.DepartureIndependentFromFeeders` | modules/reliability/src/computation/calc_departure_distribution.cc:71-95 | the loop multiplies, over all feeders, the probability that nothing is waited for |
| `Departure.CutMinutes` | modules/reliability/src/computation/calc_departure_distribution.cc:122-148 | the values of a feeder up to its latest feasible arrival |
| `Departure.CutMinutesAfterLatestFeasibleArrival` | modules/reliability/src/computation/calc_departure_distribution.cc:122-148 | one trimmed cut distribution per feeder |
| `Departure.HadToWaitForFeeders` | modules/reliability/src/computation/calc_departure_distribution.cc:97-120 | the difference of two products over the cut feeders |
| `Departure.ComputeEntry` | modules/reliability/src/computation/calc_departure_distribution.cc:203-235 | one entry of the three-phase loop: on schedule, within the waiting interval, after it |
| `Departure.ComputeDepartureDistribution` | modules/reliability/src/computation/calc_departure_distribution.cc:203-244 | the departure object ends up with the distribution that the following theorems are about |
| `FeederProperties.CutGreater` | modules/reliability/src/computation/calc_departure_distribution.cc:97-148 | the cut distribution under-states the probability of a feeder arriving later but in time, by at most the mass its trimming drops |
| `FeederProperties.ProductGap` | modules/reliability/src/computation/calc_departure_distribution.cc:71-120 | the product over cut feeders is between the product over full feeders and one, and they differ by at most the dropped mass |
| `FeederProperties.HadToWaitIsIncrement` | modules/reliability/src/computation/calc_departure_distribution.cc:97-120 | with clean cuts, having to wait at t is N(t) - N(t-1), for any list of feeders |
| `FeederProperties.NoWaitingAtEnd` | modules/reliability/src/computation/calc_departure_distribution.cc:71-95 | once every waiting interval is over, N is one |
| `FeederProperties.CleanCutsDropNothing` | modules/reliability/src/computation/calc_departure_distribution.cc:122-148 | cuts that lose only zeros drop no mass |
| `DepartureProperties.EntriesMass` | modules/reliability/src/computation/calc_departure_distribution.cc:203-244 | entries are non-negative; their sum is the train's mass less the lost masses, which are non-negative and bounded by the dropped mass |
| `DepartureProperties.DepartureMass` | modules/reliability/src/computation/calc_departure_distribution.cc:203-244 | for every valid departure: the mass asserted at the end of the function, up to exactly the lost masses; never more than the train brings; at least (1 - dropped mass) times that |
| `DepartureProperties.DepartureExact` | modules/reliability/src/computation/calc_departure_distribution.cc:203-244 | with clean cuts, the sum up to delay k is readiness times not-waiting, and the mass is conserved |
| `DepartureProperties.LostMassIff` | modules/reliability/src/computation/calc_departure_distribution.cc:97-148 | what is lost at one delay: the chance of the train getting ready at it times the effect of trimming; nothing exactly if the train cannot get ready then, or some feeder is certainly still missing, or no feeder loses values of its cut that lie after this moment |
| `DepartureProperties.DepartureConservesIff` | modules/reliability/src/computation/calc_departure_distribution.cc:203-244 | mass is conserved exactly if and only if this holds at every delay |
| `DepartureProperties.AssertionIff` | modules/reliability/src/computation/calc_departure_distribution.cc:238-243 | the assertion at the end of the function, with its tolerance, holds if and only if the lost masses are together below 0.00001 |
| `FeederProperties.ProductKeptIff` | modules/reliability/src/computation/calc_departure_distribution.cc:97-148 | trimming leaves the product over the feeders unchanged if and only if some cut factor is zero or, for every feeder, the moment is before its first minute or all later values of its cut that trimming drops are zero |
| `DepartureProperties.SmallMassCanBeLost` | modules/reliability/src/computation/calc_departure_distribution.cc:238-243 | for every departure of this shape, the mass misses the train's by more than the tolerance, so that the assertion fails |
| `DepartureProperties.SmallDepartureExists` | modules/reliability/src/computation/calc_departure_distribution.cc:238-243 | the program collects such a departure: the first one of a train, at minute 1, with one feeder that arrives at minute 0, inside the interval in which feeders are looked for |
| `DepartureTimes.DepartureQueries` | modules/reliability/src/computation/calc_departure_distribution.cc:203-244 | for every departure without a message and every delay, with any cuts: the probability of departing by then is readiness times the product over the cut feeders, less what has been lost by then, up to what trimming the result drops on either side |
| `DepartureTimes.DepartureMinutes` | modules/reliability/src/computation/calc_departure_distribution.cc:203-244 | with clean cuts, if trimming drops only zeros, it is the probability of being ready times that of nobody being waited for, for every delay |
| `DepartureTimes.ReadyMeans` | modules/reliability/src/computation/data_departure.cc:82-95 | being ready means: the start delay is not larger; or the train has arrived and stood for two minutes, or for the scheduled time if this is shorter |
| `DepartureTimes.WaitingMeans` | modules/reliability/src/computation/calc_departure_distribution.cc:71-95 | nobody being waited for means, in the terms of the predecessors: every one but the train's own arrival has either changed by then or comes too late for its waiting time |
| `DepartureTimes.DepartureMeans` | modules/reliability/src/computation/calc_departure_distribution.cc:203-244 | the same for the data collected from schedule and predecessors, in their terms |
| `DepartureTimes.NoEarlyDeparture` | modules/reliability/src/computation/calc_departure_distribution.cc:203-244 | nobody departs early, with or without a message |
| `DepartureTimes.ReportedDeparture` | modules/reliability/src/computation/calc_departure_distribution.cc:206-215 | with a message all of the train's mass is at its delay, and at zero if it is early |
| `DepartureTimes.CertainDeparture` | modules/reliability/src/computation/data_departure.cc:92-95 | without feeders, a certain arrival delay leaves what the standing time beyond two minutes does not absorb |
| `DepartureTimes.PunctualDeparture` | modules/reliability/src/computation/data_departure.cc:92-95 | without feeders, a train that stands at least two minutes and arrives at most that much late departs on time |
| `Interchange.InterchangeDataValid` | modules/reliability/src/computation/data_departure_interchange.cc:31-89 | the constructed data are valid, including the interchange feeder's waiting time |
| `Interchange.DataDepartureInterchange.constructor` | modules/reliability/src/computation/data_departure_interchange.cc:31-89 | the object holds the departure data without the interchange feeder, and the raised longest waiting time |
| `Interchange.DepartureWithinWaitingInterval` | modules/reliability/src/computation/calc_departure_distribution_interchange.cc:51-86 | the three-factor probability inside the waiting interval, with its local accumulation |
| `Interchange.ComputeDepartureDistribution` | modules/reliability/src/computation/calc_departure_distribution_interchange.cc:98-136 | the departure object ends up with the interchange distribution of the theorems below |
| `InterchangeProperties.EntriesBounds` | modules/reliability/src/computation/calc_departure_distribution_interchange.cc:98-136 | entries are non-negative, and their sum is between the mass arriving within the waiting interval and the arriving mass, each times the train's mass |
| `InterchangeProperties.InterchangeMass` | modules/reliability/src/computation/calc_departure_distribution_interchange.cc:98-136 | for every valid interchange the mass lies between these two products, the lower one less the dropped mass; a message passes the arriving mass on |
| `InterchangeProperties.InterchangeNeverGains` | modules/reliability/src/computation/calc_departure_distribution_interchange.cc:133-135 | the asserted bound: the mass never exceeds the arriving mass, if the train's mass is at most one |
| `InterchangeProperties.InterchangeExact` | modules/reliability/src/computation/calc_departure_distribution_interchange.cc:51-136 | with clean cuts, the sum up to delay k within the waiting time is the product of readiness, arrival and not-waiting |
| `InterchangeTimes.InterchangeQueries` | modules/reliability/src/computation/calc_departure_distribution_interchange.cc:98-136 | for every interchange without a message and every delay up to the waiting time, with any cuts: the probability of departing by then is between readiness times arrival times the product over the cut feeders, and the same less the dropped mass, up to what trimming the result drops on either side |
| `InterchangeTimes.InterchangeMinutes` | modules/reliability/src/computation/calc_departure_distribution_interchange.cc:98-136 | with clean cuts, if trimming drops only zeros: for every delay, up to the waiting time the triple product, and after it what the train adds while the passenger has arrived |
| `InterchangeTimes.OthersKept` | modules/reliability/src/computation/data_departure_interchange.cc:31-89 | of the predecessors exactly the arrival the passenger changes from is left out, every other one stays as often as it was there |
| `InterchangeTimes.InterchangeMeans` | modules/reliability/src/computation/calc_departure_distribution_interchange.cc:98-136 | the same for the collected data, in the terms of the schedule, the predecessors and the change |
| `InterchangeTimes.ReportedInterchange` | modules/reliability/src/computation/calc_departure_distribution_interchange.cc:101-109 | with a message all of the arriving mass is at its delay, and at zero if it is early |
| `InterchangeTimes.NoEarlyInterchange` | modules/reliability/src/computation/calc_departure_distribution_interchange.cc:98-136 | nobody departs early, with or without a message |
| `Arrival.DataArrival.constructor` | modules/reliability/src/computation/data_arrival.cc:17-75 | the fields hold the left and right bounds over all travel distributions |
| `Arrival.BoundsCover` | modules/reliability/src/computation/data_arrival.cc:42-75 | every delay that a departure delay and a travel time produce is inside the bounds |
| `Arrival.ConvolveAt` | modules/reliability/src/computation/calc_arrival_distribution.cc:30-62 | the inner loop computes one value of the convolution |
| `Arrival.CorrectRoundingErrors` | modules/reliability/src/computation/calc_arrival_distribution.cc:76-100 | the excess or deficit is put on the first largest value, if it is above the tolerance |
| `Arrival.ComputeArrivalDistribution` | modules/reliability/src/computation/calc_arrival_distribution.cc:13-73 | the arrival object ends up with the convolution, corrected and trimmed |
| `Arrival.ConvolutionMass` | modules/reliability/src/computation/calc_arrival_distribution.cc:28-73 | with travel masses one, the double sum exchanges to the departure's own mass |
| `Arrival.ArrivalMass` | modules/reliability/src/computation/calc_arrival_distribution.cc:13-73 | the arrival has exactly the mass of the departure, and the correction changes nothing |
| `Arrival.CorrectedMass` | modules/reliability/src/computation/calc_arrival_distribution.cc:76-100 | after the correction the sum is as expected, or was within the tolerance and is unchanged |
| `Arrival.CorrectionMeans` | modules/reliability/src/computation/calc_arrival_distribution.cc:77-100 | a difference of less than a millionth is left as it is; a larger one is added to the first of the largest values, and nothing else changes |
| `Arrival.ArrivalMassClose` | modules/reliability/src/computation/calc_arrival_distribution.cc:13-100 | for any travel distributions the arrival mass is within the tolerance of the departure mass |
| `ArrivalTimes.ConvolutionQueries` | modules/reliability/src/computation/calc_arrival_distribution.cc:28-73 | for any travel distributions and every delay: the convolution, put at its first minute, says that the probability of arriving by then is the sum over departure delays of departing with one and travelling fast enough, up to what trimming drops on either side |
| `ArrivalTimes.ArrivalMinutes` | modules/reliability/src/computation/calc_arrival_distribution.cc:13-73 | the same for the arrival distribution, if travel masses are one; exactly if trimming drops only zeros |
| `ArrivalTimes.CertainArrival` | modules/reliability/src/computation/calc_arrival_distribution.cc:13-73 | a certain departure delay and a certain deviation of the travel time give a certain arrival delay, their sum |
| `ArrivalTimes.ReportedArrival` | modules/reliability/src/computation/calc_arrival_distribution.cc:15-21 | with a message all mass is at its delay, which may be negative |
| `ArrivalTimes.ArrivalWithoutTable` | modules/reliability/src/computation/calc_arrival_distribution.cc:22-26 | without travel times the train arrives as late as it departs |
| `TravelTimes.GetDistributions` | modules/reliability/src/distributions/db_distributions.cc:102-163 | the look-up with its two bounds, which for unknown long travel times starts over with the longest known one, and its moving iterator deliver the list of the following theorems |
| `TravelTimes.GetTravelTimeDistributions` | modules/reliability/src/distributions/db_distributions.cc:59-100 | the same for a train class without a table |
| `TravelTimes.TravelForComplete` | modules/reliability/src/distributions/db_distributions.cc:102-163 | for every table in order, the look-up delivers nothing or one distribution for each departure delay, and only distributions of the table or the default |
| `TravelTimes.LastIsNeverDelivered` | modules/reliability/src/distributions/db_distributions.cc:119-163 | in any table in order, delays from the latest known one on are given the mapping before it, and nothing if there is only one |
| `TravelTimes.DeliveredAt` | modules/reliability/src/distributions/db_distributions.cc:102-163 | for delays 0, 1, 2 and so on: entry i is the mapping of delay i, or, from the last but one delay on, the mapping of that one |
| `TravelTimes.AsMeantIff` | modules/reliability/src/distributions/db_distributions.cc:143-163 | every delay gets the distribution that the comment promises if and only if only delays before the latest one are asked for, or the latest one has the same distribution as the one before |
| `TravelTimes.LatestDelayIsNotDelivered` | modules/reliability/src/distributions/db_distributions.cc:155-160 | a table of two delays for which late departures get the travel times of punctual ones |
| `TravelTimes.BeyondTable` | modules/reliability/src/distributions/db_distributions.cc:111-117 | travel times beyond the table are looked up as the longest one |
| `TravelTimes.NotInTable` | modules/reliability/src/distributions/db_distributions.cc:127-141 | for a travel time in between nothing is delivered, for travel time zero the default |
| `PublicTransport.RideElement` | modules/reliability/src/rating/public_transport.cc:25-43 | a leg without an interchange: arrival and departure have the same mass, at most the train's, and exactly that with clean cuts |
| `PublicTransport.ChangeElement` | modules/reliability/src/rating/public_transport.cc:72-113 | the leg after an interchange: arrival and departure have the same mass, at most that of the preceding arrival |
| `PublicTransport.ContinueShrinks` | modules/reliability/src/computation/ride_distributions_calculator.cc:39-78 | mass never grows along a train, and stays the same with clean cuts |
| `PublicTransport.ComputeDistributionsForARide` | modules/reliability/src/computation/ride_distributions_calculator.cc:39-78 | the loop over the route nodes of a train computes the ride of the next theorem |
| `PublicTransport.RideMass` | modules/reliability/src/computation/ride_distributions_calculator.cc:39-78 | over a ride of any length every event has at most the mass of the start distribution; exactly that with clean cuts |
| `PublicTransport.Rate` | modules/reliability/src/rating/public_transport.cc:115-146 | the rating method appends the elements of every further train |
| `PublicTransport.RateTrains` | modules/reliability/src/rating/public_transport.cc:72-146 | what is rated stays, and mass never grows from one event to the next, for any number of trains |
| `PublicTransport.RatingBounds` | modules/reliability/src/rating/public_transport.cc:115-146 | the rating of a connection is between zero and the mass of its first event |
| `PublicTransport.RatingIsSmallest` | modules/reliability/src/rating/connection_rating.cc:24-28 | the rating of a connection is the smallest mass of all its arrivals |
| `PublicTransport.RatingIsProbability` | modules/reliability/src/rating/public_transport.cc:115-146 | for every connection from a start distribution, the rating is between zero and the mass of that distribution |
| `RideTimes.RideDeparts` | modules/reliability/src/computation/ride_distributions_calculator.cc:39-78 | over a ride of any length: every departure without a message happens with at most k minutes of delay exactly if its train, as it has arrived at the stop before, is ready and nobody is waited for; under the conditions of `DepartureMeans` |
| `RideTimes.RideDepartsAsReported` | modules/reliability/src/computation/ride_distributions_calculator.cc:39-78 | every departure with a message happens when it is reported, but not early, with the mass of the arrival before |
| `RideTimes.RideArrives` | modules/reliability/src/computation/ride_distributions_calculator.cc:39-78 | every arrival of a ride: as reported, or as late as its departure, or its departure convolved with the travel times for the scheduled time between the two events |
| `RideTimes.ChangeDeparts` | modules/reliability/src/rating/public_transport.cc:72-113 | the first departure of a further train, in the terms of schedule and change, from the arrival before it; under the conditions of `InterchangeMeans` |
| `RideTimes.ChangeArrives` | modules/reliability/src/rating/public_transport.cc:72-113 | the arrival after it |
| `RideTimes.EventOfConnection` | modules/reliability/src/rating/public_transport.cc:115-146 | in a connection of any number of trains, every train starts with the change from the last arrival before it and continues, event by event, as a ride |
| `RideTimes.CertainRide` | modules/reliability/src/computation/ride_distributions_calculator.cc:39-78 | a train on its own that starts with a certain delay has, at every event of a ride of any length, exactly the delay that standing times beyond two minutes leave of it |
| `TransferFilter.ScheduledTransferFilter` | modules/reliability/src/rating/connection_graph_rating.cc:61-97 | the loop keeps the arrivals that catch the alternative |
| `TransferFilter.ComputeUncoveredArrivalDistribution` | modules/reliability/src/rating/connection_graph_rating.cc:99-124 | the loop keeps the arrivals that miss it |
| `TransferFilter.FilterSplitsMass` | modules/reliability/src/rating/connection_graph_rating.cc:61-124 | caught and missed arrivals are the two sides of the latest arrival delay, and their masses sum to the arriving mass exactly |
| `TransferFilter.UnreportedTrain` | modules/reliability/src/rating/connection_graph_rating.cc:61-124 | on the fields: a train that is not reported is caught until its waiting time is over, less the time to change; caught and missed mass for every arrival distribution |
| `TransferFilter.ReportedTrain` | modules/reliability/src/rating/connection_graph_rating.cc:61-124 | a reported train is caught until the reported time, less the time to change |
| `TransferFilter.FilteredMinutes` | modules/reliability/src/rating/connection_graph_rating.cc:61-82 | caught arrivals keep their minutes: up to the latest delay they are the arrivals, up to what trimming drops |
| `TransferFilter.UncoveredMinutes` | modules/reliability/src/rating/connection_graph_rating.cc:99-124 | so do missed arrivals behind it |
| `TransferFilter.StopConservesMass` | modules/reliability/src/rating/connection_graph_rating.cc:61-139 | after any sequence of alternatives, the masses passed on plus the uncovered remainder are the arriving mass exactly, whatever trimming did |
| `EarlyWalks.MoveEarlyWalk` | modules/reliability/src/search/connection_graph_builder.cc:139-157 | the loop moves every inner walk by what it then has to wait |
| `EarlyWalks.MovedPieces` | modules/reliability/src/search/connection_graph_builder.cc:139-157 | moving walks changes nothing but times, and a journey is cut at the same places |
| `EarlyWalks.MovedDurations` | modules/reliability/src/search/connection_graph_builder.cc:139-157 | in a journey whose walks follow one another, walks keep their durations and rides their times |
| `EarlyWalks.MovedKeepsDelays` | modules/reliability/src/search/connection_graph_builder.cc:139-157 | every event keeps the delay to its schedule, which is moved too |
| `EarlyWalks.EndStays` | modules/reliability/src/search/connection_graph_builder.cc:139-157 | the arrival at the end of the journey stays |
| `EarlyWalks.NoEarlyWalkIff` | modules/reliability/src/search/connection_graph_builder.cc:139-157 | for journeys whose inner stops are left no earlier than reached: afterwards no inner walk ends early, if and only if no walk is directly followed by a walk that is moved itself |
| `EarlyWalks.EarlyWalkIsLeft` | modules/reliability/src/search/connection_graph_builder.cc:139-157 | a journey of two walks and a ride in which the first walk ends early only after moving |
| `JourneySplit.CorrectTransportsAndAttributesIndices` | modules/reliability/src/search/connection_graph_builder.cc:18-35 | both halves of the spans, shifted and clipped at the cut |
| `JourneySplit.SplitAt` | modules/reliability/src/search/connection_graph_builder.cc:37-95 | the two journeys on both sides of a cut |
| `JourneySplit.CutInside` | modules/reliability/src/search/connection_graph_builder.cc:97-130 | a cut is strictly inside, so splitting terminates, and both halves are valid journeys |
| `JourneySplit.SplitJourney` | modules/reliability/src/search/connection_graph_builder.cc:116-137 | the recursive splitting of the last piece gives the pieces of the next theorems |
| `JourneySplit.PiecesHaveStops` | modules/reliability/src/search/connection_graph_builder.cc:116-137 | every piece is a valid journey without a further cut |
| `JourneySplit.GlueRestores` | modules/reliability/src/search/connection_graph_builder.cc:116-137 | the number of legs is conserved; gluing the pieces gives back the stops if and only if every cut is at a stop that can be entered |
| `JourneyChanges.CutsAreChanges` | modules/reliability/src/search/connection_graph_builder.cc:97-137 | the cuts are the stops at which the traveller leaves a vehicle before using further public transport |
| `JourneyChanges.GlueRestoresIff` | modules/reliability/src/search/connection_graph_builder.cc:116-137 | gluing gives back the stops if and only if the traveller can also get in at each of these stops |
| `JourneyChanges.PieceEnds` | modules/reliability/src/search/connection_graph_builder.cc:57-95 | in every piece but the last one the traveller leaves at the end, and nothing departs there; in every piece but the first one he enters at the start, and nothing has arrived there; the ends of the journey stay |
| `JourneyChanges.PiecesCover` | modules/reliability/src/search/connection_graph_builder.cc:18-137 | no piece gets a transport or attribute that is not used in it |
| `JourneySplit.LegsKeepTheirSpans` | modules/reliability/src/search/connection_graph_builder.cc:18-137 | every leg is covered, in its piece, by exactly the transports and attributes that covered it before |
| `ConnectionGraph.ConnectionGraph.AddBaseJourney` | modules/reliability/src/search/connection_graph_builder.cc:172-201 | stops and journeys of the base journey with its walks moved |
| `ConnectionGraph.ConnectionGraph.AddAlternativeJourney` | modules/reliability/src/search/connection_graph_builder.cc:203-234 | the new alternative, with its walks moved, at its stop, and one new stop per further piece |
| `ConnectionGraph.BaseIsWellBuilt` | modules/reliability/src/search/connection_graph_builder.cc:172-201 | index equals position, every intermediate stop is the target of exactly one alternative, and next stops have larger indices or are the arrival stop |
| `ConnectionGraph.AlternativeIsWellBuilt` | modules/reliability/src/search/connection_graph_builder.cc:203-234 | adding an alternative at an intermediate stop keeps this |
| `GraphRoutes.RunKeepsBase` | modules/reliability/src/search/connection_graph_builder.cc:172-234 | in every graph the search can build, going on from the departure stop with the first alternatives gives the pieces of the base journey, in order |
| `GraphRoutes.RunKeepsInserted` | modules/reliability/src/search/connection_graph_builder.cc:203-234 | and from every inserted alternative the pieces of its journey, whatever is inserted or rated later |
| `GraphRoutes.BaseRestoredIff` | modules/reliability/src/search/connection_graph_builder.cc:172-234 | gluing what the graph offers from the departure stop on gives back the base journey if and only if all its changes can be entered |
| `GraphRoutes.InsertedRestoredIff` | modules/reliability/src/search/connection_graph_builder.cc:203-234 | the same for every inserted journey |
| `ConnectionGraphRating.ArrivingIsUnique` | modules/reliability/src/rating/connection_graph_rating.cc:141-160 | the lookup of the arriving element always finds the one and only predecessor |
| `ConnectionGraphRating.RateStep` | modules/reliability/src/rating/connection_graph_rating.cc:179-235 | rating one alternative keeps the graph valid and its shape |
| `ConnectionGraphRating.RateInserted` | modules/reliability/src/rating/connection_graph_rating.cc:238-260 | the recursion over next stops terminates and keeps the graph valid |
| `ConnectionGraphContext.ConnGraphContext.RateAlternativeInCg` | modules/reliability/src/rating/connection_graph_rating.cc:194-235 | the method on the objects performs exactly this step |
| `ConnectionGraphContext.ConnGraphContext.RateFirstJourneyInCg` | modules/reliability/src/rating/connection_graph_rating.cc:179-192 | the same for the first journey |
| `ConnectionGraphContext.ConnGraphContext.FindArrivingConnectionElement` | modules/reliability/src/rating/connection_graph_rating.cc:141-160 | the nested loops return that predecessor |
| `ConnectionGraphContext.ConnGraphContext.UpdateUncoveredArrivalDistribution` | modules/reliability/src/rating/connection_graph_rating.cc:126-139 | the uncovered arrivals of a stop after one more alternative |
| `ConnectionGraphContext.ConnGraphContext.RateInsertedAlternative` | modules/reliability/src/rating/connection_graph_rating.cc:238-260 | the recursive method performs the rating of a whole inserted alternative |
| `ConnectionGraphContext.ConnGraphContext.AddAlternative` | modules/reliability/src/search/connection_graph_search.cc:58-70 | inserting and rating one alternative |
| `ConnectionGraphMass.FlowBalances` | modules/reliability/src/rating/connection_graph_rating.cc:194-260 | everything that leaves a stop arrives at a stop |
| `ConnectionGraphMass.InflowIsArriving` | modules/reliability/src/rating/connection_graph_rating.cc:141-160 | the inflow of a stop is the mass of its arriving element |
| `ConnectionGraphMass.DestinationAtMostStart` | modules/reliability/src/rating/connection_graph_rating.cc:194-260 | in any graph whose stops pass on at most what they receive, the destination gets at most the start mass |
| `ConnectionGraphRuns.RateStepKeepsLedger` | modules/reliability/src/rating/connection_graph_rating.cc:194-235 | one rating keeps every stop from passing on more than it receives, and never lowers the mass at the destination |
| `ConnectionGraphRuns.RateInsertedKeepsLedger` | modules/reliability/src/rating/connection_graph_rating.cc:238-260 | so does the rating of a whole inserted alternative |
| `ConnectionGraphRuns.LateWalkKeepsLedgerIff` | modules/reliability/src/rating/connection_graph_rating.cc:205-215 | for a walk inserted after other alternatives, the ledger of its own stop survives if and only if these pass nothing on |
| `LateWalks.LateWalkDelivers` | modules/reliability/src/rating/connection_graph_rating.cc:194-215 | in any graph, such a walk adds the whole arriving mass of its stop to the mass at the destination |
| `LateWalks.LateWalkKeepsMassIff` | modules/reliability/src/rating/connection_graph_rating.cc:194-215 | after any run without walks, the mass at the destination stays within the start mass if and only if at least as much is still missing there as arrives at the stop of the walk |
| `LateWalks.LateWalkDoublesMass` | modules/reliability/src/rating/connection_graph_rating.cc:194-215 | in a schedule of two punctual trains with a safe change, for every base journey in two pieces and every walk: the walk inserted at the change brings the mass at the destination from one to two, with a start mass of one |
| `LateWalks.WalkBreaksBalance` | modules/reliability/src/rating/connection_graph_rating.cc:194-215 | the same for two explicit rides and an explicit walk: more mass arrives than has started |
| `ConnectionGraphRuns.RunMass` | modules/reliability/src/rating/connection_graph_rating.cc:179-260 | for every run of the search the mass at the destination is at most the start mass, which is at most that of the start distribution |
| `ConnectionGraphRuns.MassNeverDrops` | modules/reliability/src/rating/connection_graph_rating.cc:194-260 | adding alternatives never lowers the mass at the destination |
| `RatedGraph.RunIsRated` | modules/reliability/src/rating/connection_graph_rating.cc:179-260 | in every graph the search can build every alternative is rated, and what each stop has left over is stored |
| `RatedGraph.EveryAlternativeIsRated` | modules/reliability/src/rating/connection_graph_rating.cc:61-260 | every alternative of every stop, in terms of the one alternative that leads there: a walk keeps its arrival; trains are rated with the part that the earlier alternatives have left over and that catches the first train |
| `RatedGraph.StopsConserve` | modules/reliability/src/rating/connection_graph_rating.cc:61-235 | at every stop of such a graph where only trains go on: what they are passed, one after the other, and what stays uncovered are the arriving mass exactly |
| `ArrivalMerge.DistributionsArrivingAlternatives` | modules/reliability/src/rating/cg_arrival_distribution.cc:13-36 | the loops collect the alternatives that arrive at the destination |
| `ArrivalMerge.CalcArrivalDistribution` | modules/reliability/src/rating/cg_arrival_distribution.cc:39-85 | the loops add all distributions at their offsets from the earliest arrival |
| `ArrivalMerge.IndicesInRange` | modules/reliability/src/rating/cg_arrival_distribution.cc:60-85 | every value of every distribution lands inside the merged array |
| `ArrivalMerge.MergedMass` | modules/reliability/src/rating/cg_arrival_distribution.cc:60-85 | the merged distribution has exactly the mass at the destination |
| `ArrivalMerge.GraphArrivalMass` | modules/reliability/src/rating/cg_arrival_distribution.cc:13-85 | for every connection graph the search can build, the merged distribution exists and its mass is between zero and the start mass |
| `MergedArrival.BeginIsFirstArrival` | modules/reliability/src/rating/cg_arrival_distribution.cc:13-47 | the merged distribution begins at the earliest first arrival: the minimum, over all alternatives that lead to the destination, of the scheduled arrival plus 60 times the first minute |
| `MergedArrival.MergedMinutes` | modules/reliability/src/rating/cg_arrival_distribution.cc:60-85 | with whole-minute schedules, if trimming drops only zeros: the point query at a minute is the sum, over these alternatives, of the probability of arriving at that time |
| `MergedArrival.OneAlternative` | modules/reliability/src/rating/cg_arrival_distribution.cc:13-85 | with one such alternative, the merged distribution is its arrival distribution, and begins at its first arrival |
| `DependencyGraph.FeederTimeInterval` | modules/reliability/src/computation/distributions_calculator.cc:69-81 | the interval of a feeder ends before the departure |
| `DependencyGraph.FeederMeans` | modules/reliability/src/computation/distributions_calculator.cc:69-103 | a feeder is an arrival that is waited for, in the last half hour before the departure, at least a minute before it, and early enough to change |
| `DependencyGraph.PrecomputedGraph.AddEdge` | modules/reliability/src/computation/distributions_calculator.cc:123-163 | predecessor and successor lists stay mirrored, and exactly one edge is added |
| `DependencyGraph.PrecomputedGraph.InitPredecessorsAndSuccessors` | modules/reliability/src/computation/distributions_calculator.cc:84-163 | the edges are exactly: departure to arrival, preceding arrival and feeders to departure; all lead to later events |
| `DependencyGraph.TimetableGrows` | modules/reliability/src/computation/distributions_calculator.cc:138-163 | a light connection whose events are new keeps the graph a timetable: edges join departures and arrivals, an arrival depends on one departure, and within a minute a departure depends only on its own train |
| `DependencyGraph.PerformPrecomputation` | modules/reliability/src/computation/distributions_calculator.cc:208-273 | the graph of all light connections, repeated ones being skipped, is an acyclic timetable |
| `DependencyGraph.NoCycles` | modules/reliability/src/computation/distributions_calculator.cc:138-163 | no path along dependencies returns to where it started |
| `RealtimeUpdate.IsSignificantUpdate` | modules/reliability/src/realtime/realtime_update.cc:78-91 | the loop over both distributions detects a significant difference |
| `RealtimeSignificance.SignificantMinutes` | modules/reliability/src/realtime/realtime_update.cc:78-91 | an update is significant if one compared minute changes by more than a thousandth, and only if one changes at all |
| `RealtimeSignificance.InsignificantIsCloseIff` | modules/reliability/src/realtime/realtime_update.cc:78-91 | an update that is not significant changes no cumulative query by more than a thousandth, not even behind the minutes that are compared, if and only if it does not change the mass by more than that |
| `RealtimeSignificance.HiddenChange` | modules/reliability/src/realtime/realtime_update.cc:82-83 | two distributions that differ by a half behind the smaller last minute, without a significant difference |
| `RealtimeSignificance.TurnPushes` | modules/reliability/src/realtime/realtime_update.cc:116-174 | a turn pushes all known successors if one compared minute changes by more than a thousandth, and nothing if none changes or nothing is recomputed |
| `RealtimeSignificance.TopMeans` | modules/reliability/src/realtime/realtime_update.cc:99-111 | an event of the earliest minute is taken; an arrival, if there is one in it; and of these one of the smallest train |
| `RealtimeSignificance.BeforeIsOrder` | modules/reliability/src/realtime/realtime_update.cc:99-111 | the comparison is a strict weak order, as the priority queue requires it |
| `RealtimeSignificance.TakenTwice` | modules/reliability/src/realtime/realtime_update.cc:123-131 | an event that is taken twice in a row is skipped the second time, unless it was the first one of a new minute: the program does not remember this one, and computes it again |
| `RealtimeUpdate.Top` | modules/reliability/src/realtime/realtime_update.cc:99-111 | an element of the queue that no other one precedes |
| `RealtimeUpdate.PrecomputedDistributions.ProcessElement` | modules/reliability/src/realtime/realtime_update.cc:116-174 | the whole new state of queue, processed events and distributions after taking a first element |
| `RealtimeUpdate.TurnReduces` | modules/reliability/src/realtime/realtime_update.cc:116-174 | a turn lowers the weight of the queue and pushes only successors of the taken event |
| `RealtimeUpdate.PrecomputedDistributions.UpdatePrecomputedDistributions` | modules/reliability/src/realtime/realtime_update.cc:226-268 | for every initial queue the loop ends, after at most as many turns as the queue weighs, only events that depend on a queued one change, and its states form a run of turns |
| `RealtimeConsistency.TurnKeepsSettled` | modules/reliability/src/realtime/realtime_update.cc:116-174 | if every edge follows the order of the queue, every turn keeps processed and unqueued events current: computed from their predecessors, none of which has changed significantly since |
| `RealtimeConsistency.RunSettled` | modules/reliability/src/realtime/realtime_update.cc:226-268 | so does every run, from any start in which everything unqueued is current |
| `RealtimeConsistency.CurrentIsExact` | modules/reliability/src/realtime/realtime_update.cc:157-174 | if no change was too small to be passed on, a current distribution is the one that its predecessors now give |
| `RealtimeStaleness.RidesEndCurrent` | modules/reliability/src/realtime/realtime_update.cc:116-174 | in a timetable whose rides take time, every update ends with current distributions, whatever is queued and however it is computed |
| `RealtimeReports.DoneStays` | modules/reliability/src/realtime/realtime_update.cc:116-174 | an event that is up to date stays so over every turn, if it has a message or nothing before it can change any more |
| `RealtimeReports.ReadyStays` | modules/reliability/src/realtime/realtime_update.cc:116-174 | every turn keeps the processed events up to date, and queues events without a message only behind events that are |
| `RealtimeReports.ReportsEndCurrent` | modules/reliability/src/realtime/realtime_update.cc:226-268 | if updates start from events with a message, which read nothing but masses, every run ends with current distributions even if rides take no time, provided no departure with a feeder leaves in the minute in which its train has departed from the stop before |
| `RealtimeStaleness.HasteGoesStale` | modules/reliability/src/realtime/realtime_update.cc:122-131 | if there is such a departure and another arrival in its minute, an update started by three reports skips the departure as already updated after its train's arrival has changed |
| `RealtimeDelays.DepartureTakesOver` | modules/reliability/src/computation/calc_departure_distribution.cc:203-244 | the departure of that update is computed as the program does: it has the delay of its train's arrival |
| `RealtimeStaleness.AlwaysCurrentIff` | modules/reliability/src/realtime/realtime_update.cc:116-174 | for every timetable: updates leave all events current, whatever other train is added to it, if and only if there is no such departure |
| `RealtimeStaleness.HastyTimetable` | modules/reliability/src/realtime/realtime_update.cc:116-174 | a timetable of two trains for which they do not |
| `RealtimeUpdate.PushedWeight` | modules/reliability/src/realtime/realtime_update.cc:154-174 | what is pushed for an event weighs less than the event |
| `FloydWarshall.FloydWarshall` | base/core/include/motis/core/common/floyd_warshall.h:29-46 | the in-place triple loop leaves the distance of every pair in the matrix |
| `FloydWarshall.DistanceIsShortest` | base/core/include/motis/core/common/floyd_warshall.h:29-46 | the distance is the length of a shortest walk of at least one step |
| `FootComponents.Search` | base/loader/src/build_footpaths.cc:274-289 | the stack loop ends in spite of duplicate entries, and labels exactly what its root reaches |
| `FootComponents.FindComponents` | base/loader/src/build_footpaths.cc:260-292 | every station gets the label that the searches in order of their roots give it |
| `FootComponents.LabelReaches` | base/loader/src/build_footpaths.cc:260-292 | in any directed graph, a label reaches the stations that carry it |
| `FootComponents.LabelsNonDecreasing` | base/loader/src/build_footpaths.cc:260-292 | in any directed graph, labels never decrease along a footpath, and both its ends are labelled |
| `FootComponents.SymmetricLabelIsSmallest` | base/loader/src/build_footpaths.cc:260-292 | in a symmetric graph only isolated stations stay unlabelled, and a label is the smallest station of the connected component |
| `FootComponents.SymmetricEdgesStayInside` | base/loader/src/build_footpaths.cc:260-292 | in a symmetric graph every footpath stays inside its label class |
| `FootConnectivity.StayInsideIff` | base/loader/src/build_footpaths.cc:260-292 | in any directed graph, every footpath stays inside its label class if and only if every connected component with a footpath has a station that reaches all of it |
| `FootComponents.RelabellingSplitsComponents` | base/loader/src/build_footpaths.cc:276-287 | in a directed graph a later root can relabel the end of a footpath, which then leaves its class |
| `FootRoutes.LastIsLongest` | base/loader/src/build_footpaths.cc:341-349 | of parallel footpaths the sorted merge keeps the longest |
| `FootRoutes.MatrixDistance` | base/loader/src/build_footpaths.cc:338-351 | in a class that no footpath leaves, a finite matrix distance is the length of a shortest route of the whole graph |
| `FootRoutes.ShortestIsMatrixDistance` | base/loader/src/build_footpaths.cc:338-351 | and every shortest route below infinity is a matrix distance |
| `FootParallels.StepIsFootpathIff` | base/loader/src/build_footpaths.cc:341-349 | the matrix starts with the footpaths of a station if and only if its parallel footpaths have equal durations |
| `FootParallels.QuickLengthIff` | base/loader/src/build_footpaths.cc:341-349 | along a route the closure counts more than the shortest parallel footpaths take exactly if parallel footpaths on it differ |
| `FootParallels.ListedIsQuickestIff` | base/loader/src/build_footpaths.cc:186-216 | the duration listed between two stations is never too short, and is that of the quickest routes if and only if one of these uses no footpath with differing parallels |
| `FootPaths.OutRowExact` | base/loader/src/build_footpaths.cc:353-368 | a row of the matrix lists exactly the stations reached below infinity, once each, with the duration of a shortest route |
| `FootPaths.PromiseIsTransitive` | base/loader/src/build_footpaths.cc:186-216 | the lists are transitively closed, and the listed connection is not longer than the two it replaces |
| `FootPaths.ListedIffReached` | base/loader/src/build_footpaths.cc:186-216 | a station lists another one if and only if a route below infinity leads there |
| `FootpathLists.FillRow` | base/loader/src/build_footpaths.cc:341-349 | the sorted merge with its moving iterator fills a row; footpaths that leave the class land in the next row, or nowhere |
| `FootpathLists.CloseMatrix` | base/loader/src/build_footpaths.cc:338-351 | matrix and all-pairs algorithm give the distances of the class |
| `FootpathLists.FootpathBuilder.WriteLists` | base/loader/src/build_footpaths.cc:353-368 | row by row, outgoing and incoming lists |
| `FootpathLists.FootpathBuilder.ProcessPair` | base/loader/src/build_footpaths.cc:301-333 | the shortcut for two stations, and what a failed check leaves behind |
| `FootpathLists.PairFilled` | base/loader/src/build_footpaths.cc:301-333 | the shortcut for two stations with one footpath each at most gives the same lists as the matrix |
| `FootpathLists.FootpathBuilder.ProcessComponent` | base/loader/src/build_footpaths.cc:294-369 | only lists of members change; a class gets its closure if no footpath leaves it and, with two stations, neither has several footpaths; any other class ends up with a missing or a misplaced footpath |
| `FootClosure.SortComponents` | base/loader/src/build_footpaths.cc:191-192 | the pairs of label and station, sorted |
| `FootClosure.EqualRanges` | base/loader/src/build_footpaths.cc:194-198 | runs of equal labels: a partition of the stations |
| `FootClosure.ClassContainsItsLabel` | base/loader/src/build_footpaths.cc:274-289 | a class contains the station that it is named after, which has footpaths |
| `FootClosure.ClosableIff` | base/loader/src/build_footpaths.cc:186-216 | all classes are of that kind if and only if every component has a station that reaches all of it and no station of a component of two has several footpaths |
| `FootClosure.TransitivizeFootpaths` | base/loader/src/build_footpaths.cc:186-216 | for every valid sorted graph and every order in which the classes are processed: every station lists exactly the stations it reaches, with shortest durations over the steps of the matrix, and the incoming lists mirror this, if and only if the graph meets these two conditions |
| `RisCodec.EncodeAppends` | modules/ris/src/ris.cc:417-423 | putting buffers behind one another is writing the messages one after the other |
| `RisCodec.OneMessage` | modules/ris/src/ris.cc:417-423 | a message below the size limit is written as two bytes of its size, the low one first, and itself |
| `RisCodec.RoundTripIff` | modules/ris/src/ris.cc:265-280 | the reader loop gives back a list of messages from its buffer if and only if all of them are below 65536 bytes |
| `RisDays.LookUpCoversIff` | modules/ris/src/ris.cc:64-88 | every message that overlaps the schedule is indexed under a day that is looked up, if and only if the day of the last event begins before the end of the look-up |
| `RisDays.BoundaryOnly` | modules/ris/src/ris.cc:69-73 | after the epoch this fails exactly if the last event is on a day boundary |
| `RisDays.RelevantIff` | modules/ris/src/ris.cc:272-276 | a message is relevant exactly if it and the schedule have a moment in common |
| `RisDays.MessageDaysIff` | modules/ris/src/ris.cc:79-88 | the days of a message are exactly those that contain one of its moments |
| `RisDays.ScheduleDaysIff` | modules/ris/src/ris.cc:230-235 | the days that are looked up are exactly those that contain a moment of the schedule before its last one |
| `RisIndex.IndexMessage` | modules/ris/src/ris.cc:447-460 | the loop over the days of a message ends, and lowers or raises the entries of exactly these days |
| `RisIndex.ExtremesMeaning` | modules/ris/src/ris.cc:447-460 | the entries for a day are attained by, and bound, the timestamps of the messages that touch it |
| `RisIndex.MergeMin` | modules/ris/src/ris.cc:472-486 | the entries of a run are merged into the stored index |
| `RisIndex.MergeMax` | modules/ris/src/ris.cc:488-494 | the same for the largest timestamps |
| `OrderedStore.LookupPut` | modules/ris/src/ris.cc:417-423 | writing a bucket changes this bucket only |
| `RisDatabase.FlushToDb` | modules/ris/src/ris.cc:406-423 | the buffered messages of every timestamp are put in front of what the store holds |
| `RisDatabase.CollectMessages` | modules/ris/src/ris.cc:400-467 | with any number of intermediate flushes, every bucket grows by each message of the input with its timestamp, once; in the order of the input if the messages fit the write buffer |
| `RisDatabase.Database.WriteToDb` | modules/ris/src/ris.cc:400-497 | buckets and both indexes after a write; if all messages fit the size prefix, readers get old and new messages and the index covers them |
| `RisDatabase.PrependedReads` | modules/ris/src/ris.cc:265-280 | the reader gets the new messages and then the old ones |
| `RisDatabase.WriteKeepsGood` | modules/ris/src/ris.cc:400-497 | a write keeps every message filed under its own timestamp, and every day it touches indexed at or before it |
| `RisDatabase.SweepBack` | modules/ris/src/ris.cc:162-168 | the cursor moves back to the beginning and deletes what is not later |
| `RisDatabase.PurgeDeletesIff` | modules/ris/src/ris.cc:154-171 | everything up to the given time is removed if and only if something is stored at or after it, or nothing is stored |
| `RisDatabase.Database.Purge` | modules/ris/src/ris.cc:154-171 | what is left after a purge, which keeps the invariant of the store |
| `RisForward.ReadBucket` | modules/ris/src/ris.cc:265-280 | the pointer loop over the bytes of a bucket selects the relevant messages, and fails exactly if the bucket ends inside a message |
| `RisForward.PublishRange` | modules/ris/src/ris.cc:243-293 | the batches, none of them empty, are together the relevant messages of the range, in order; it fails exactly if a bucket of the range ends inside a message |
| `RisForward.GetMinTimestamp` | modules/ris/src/ris.cc:298-316 | the smallest index entry of the days of the schedule |
| `RisForward.RelevantNotBefore` | modules/ris/src/ris.cc:298-316 | unless the last event is on a day boundary, no relevant stored message is before this timestamp |
| `RisForward.ForwardComposes` | modules/ris/src/ris.cc:228-296 | forwarding to a middle time and on publishes the same sequence and leaves the same clock as forwarding at once |
| `RisForward.RunIsOneStep` | modules/ris/src/ris.cc:228-296 | so does every run of non-decreasing steps |
| `RisForward.RunPublishesOnce` | modules/ris/src/ris.cc:228-296 | no such run publishes a stored message twice |
| `RisForward.RunCount` | modules/ris/src/ris.cc:243-296 | for any run, forward or back: a relevant message is published as often as it is stored, once for every step over its timestamp |
| `RisForward.OneStepOverIff` | modules/ris/src/ris.cc:243-296 | at most one step goes over a point in time if and only if it is in no two of the intervals between the clock and the steps |
| `RisForward.RunRepeatsNothingIff` | modules/ris/src/ris.cc:243-296 | for every store and every run: no stored message is published more often than it is stored if and only if no two steps go over the timestamp of a relevant one |
| `RisForward.GoingBackRepeats` | modules/ris/src/ris.cc:293-295 | a step back and forward again publishes everything again |
| `RisForward.IndexHidesNothing` | modules/ris/src/ris.cc:228-316 | unless the last event is on a day boundary, a step publishes every relevant stored message after the clock |
| `RisForward.WrittenIsPublishedIff` | modules/ris/src/ris.cc:228-316 | for any parser and any relevant message: once written to an empty store, the steps over its timestamp publish it if and only if one of its days is looked up |
| `RisForward.BoundaryHides` | modules/ris/src/ris.cc:228-316 | for any parser: a relevant message that touches only the day on whose boundary the last event is, is never published after it has been written |
| `RisForward.Ris.ForwardTo` | modules/ris/src/ris.cc:228-296 | the operation publishes and moves the clock as these theorems say; without relevant data the clock stays |
| `ServiceExpansion.ExpandDay` | base/loader/src/graph_builder.cc:434-511 | the retrying loop ends; it succeeds exactly if one hour of correction from one event on, at most once, makes the day consistent, and returns the times of that correction |
| `ServiceExpansion.PlanIsUnique` | base/loader/src/graph_builder.cc:470-497 | there is at most one event to correct from |
| `ServiceExpansion.ServiceTimesToUtc` | base/loader/src/graph_builder.cc:424-527 | traffic days are grouped by their relative times; it fails exactly if some day cannot be repaired |
| `ServiceLocalTimes.EventsShowTimetable` | base/loader/src/graph_builder.cc:442-464 | the way back: before a correction, the universal time of an event plus the offset of the season, if it is in the season, or else plus the general offset, is the local time of the timetable |
| `ServiceLocalTimes.CorrectedEventsShowTimetable` | base/loader/src/graph_builder.cc:451-497 | from the correction on, the same holds an hour earlier; for the hour before the season the local time decides |
| `ServiceLocalTimes.ResultShowsEvents` | base/loader/src/graph_builder.cc:457-464 | relative time and initial day make up the universal time; the initial day is the local day of the first departure, or the one before |
| `ServiceLocalTimes.UncorrectedIff` | base/loader/src/graph_builder.cc:466-498 | a day stays without a correction if and only if no event is earlier than the one before it or in the hour that does not exist |
| `ServiceLocalTimes.CorrectionRepairs` | base/loader/src/graph_builder.cc:466-498 | a correction starts at the first such event; with its hour the event and all later ones are in order |
| `ServiceLocalTimes.SummerIsAnHourEarlier` | base/loader/src/graph_builder.cc:447-464 | a service from eight to nine in the morning runs from six to seven in summer, and from seven to eight before it, in universal time |
| `ServiceLocalTimes.LastHourComesTwice` | base/loader/src/graph_builder.cc:447-464 | in a zone whose season has the smaller offset, a universal time before the end of the season can belong to a local time behind it |
| `ServiceConnections.TimesNonDecreasing` | base/loader/src/graph_builder.cc:463-509 | the relative times never decrease, and start at or after the initial day |
| `ServiceConnections.InitialDaysDiffer` | base/loader/src/graph_builder.cc:451-463 | traffic days with the same relative times have different initial days, if the zone offsets are close |
| `ServiceConnections.DayInOneGroup` | base/loader/src/graph_builder.cc:511-523 | every traffic day belongs to exactly one group, under an initial day of its own |
| `ServiceConnections.DaysConserved` | base/loader/src/graph_builder.cc:424-527 | the groups have together as many days as there are traffic days |
| `ServiceConnections.SectionToConnection` | base/loader/src/graph_builder.cc:390-423 | exactly the days that pass the guard are entered, shifted by the travelled days; duration and minute of departure |
| `ServiceConnections.ConnectionRunsOnTime` | base/loader/src/graph_builder.cc:390-423 | for every traffic day that passes the guard, the bit of a day times 1440 plus the stored minutes are the computed universal times of departure and arrival |
| `ServiceConnections.BitsAreTrafficDays` | base/loader/src/graph_builder.cc:390-423 | every bit of a connection is the departure of a traffic day of its group |

## Left out

- The 16-bit wrap of times, durations and minutes of connections, floating-point rounding, NaN: times are unbounded integers, probabilities exact reals. The 16-bit size prefix of the message store and the 512 days of a bit field are modelled.
- Distributions.ProbabilityDistribution.Init: does not model the program's check that no value is negative or above one; the theorems about it require non-negative values.
- The tolerant comparisons `equal` and `smaller_equal` of probabilities are exact in the model, except in `CorrectRoundingErrors`.
- Which distribution a database returns for a train category and travel time, and whether a route is precomputed: the tables are parameters, with the travel masses being one as a condition of the mass theorems.
- The computation of waiting and transfer times from the schedule (`interchange_info`, waiting time rules): parameters of the model.
- The interchange after a walk (`data_departure_interchange_walk`): it repeats the interchange with a shifted arrival.
- The selection of alternatives by the search: the runs in `ConnectionGraphRuns` allow any alternatives.
- ConnectionGraphRuns.RunMass: does not cover inserted alternatives that begin with a walk-only piece, because they break the balance, as `WalkBreaksBalance` shows; `LateWalkKeepsMassIff` says when they do not.
- Departure.DataDeparture.constructor: takes times, messages and the preceding arrival, which the program looks up in the schedule, as parameters.
- Interchange.DataDepartureInterchange.constructor: takes transfer and waiting times, which the program looks up in the schedule, as parameters.
- JourneySplit.SplitAt: does not model duration, number of transfers, price and penalties of the two halves.
- TravelTimes.GetTravelTimeDistributions: takes the table of a train class as a parameter.
- RealtimeUpdate.PrecomputedDistributions.ProcessElement: does not model what is recomputed for an event, nor exceptions thrown by it; recomputation is a parameter.
- RealtimeUpdate.PrecomputedDistributions.UpdatePrecomputedDistributions: takes the initial queue, which the program derives from an update message, as a parameter.
- MergedArrival.MergedMinutes: is about schedules of whole minutes; of other times the merge rounds the offset down.
- DependencyGraph.PrecomputedGraph.InitPredecessorsAndSuccessors: takes the candidate feeders of a departure as a parameter instead of walking the route graph.
- RealtimeReports.ReportsEndCurrent: requires that recomputation loses no mass, as is proved for departures with clean cuts; says nothing about updates in which trimming loses mass.
- TravelTimes.AsMeantIff: is about tables whose delays start at 0 and have no gaps, which the loader checks except for the start.
- FootpathLists.FillRow: a write behind the end of the matrix, which is undefined in the program, is modelled as a failure of the component.
- FootClosure.TransitivizeFootpaths: the parallel loop over the classes is any sequential order.
- The construction of foot nodes and edges, and the adjustment of durations to geographic distance.
- RisDatabase.Database.WriteToDb: does not publish the written messages and keeps no list of parsed files; messages that mention no point in time, and timestamps before the epoch, are excluded; parsing a message header is a parameter.
- RisForward.PublishRange: does not say where one batch ends and the next one begins, only what all batches hold together.
- RisForward.Ris.ForwardTo: returns nothing where a bucket ends inside a message and the program reads on behind its buffer; does not model `upload` and `read`, which set the clock to the newest message, and the notification after a step.
- Database transactions, cursors of concurrent readers, locks and the list of parsed files: maps and atomic steps instead.
- ServiceExpansion.ExpandDay: zone offsets of a day or more, and stations without a zone, are excluded.
- ServiceExpansion.ServiceTimesToUtc: does not model the first and last event of the schedule, which the loop also tracks.
- Routing, connection scanning, delay propagation, trip correction, and every module that forwards requests.
