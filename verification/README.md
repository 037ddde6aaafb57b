# The time server's decisions, modelled and proved

An NTP server that turns several noisy clocks into one served time. What it decides is decided by
sequential state machines and by interval and calendar arithmetic; this project models those in Dafny
and proves what they promise, over every input and every run.

- **The selector** (`Candidates`, `Intersection`, `WeightedMeans`, `Combination`, `Agreement`, `Failover`,
  `Selector`, with `Medians` and `Folds`). Each class of sources is judged against its own median, a
  latch chooses the class that serves, the intersection algorithm of section 11.2.1 of RFC 5905 keeps the
  sources that agree, and their weighted combination is served, or the last one coasts. `Selector.Selector`
  is the object; the judge and the latch are also steps over a memory, and the object's fields are proved
  to be what the runs of those steps over all its passes make them.
- **A source's offset** (`LeastSquares`, `RateFit`, `SpikeHold`, `OffsetEstimator`). A trimmed least-squares
  rate, a step detector, a median level, and the level held through a jitter spike.
- **The calendar and the naming of seconds** (`CivilTime`, `Pps`, `UtcAnchor`).
- **Keeping count of a stream, and refusing misread times** (`Timeline`, `TimeContinuity`, `CaptureClock`).
- **The NTP client and server** (`NtpClient`, `NtpTime`, `RateLimiter`, `Forgetting`, `IpPrefix`).
- **Bounded structures against an unbounded ideal** (`MinuteRing`, `ClientTally`, `HourCounter`, `Metrics`,
  `StateTimeline`, `Events`, `Mqtt`).

Objects whose methods change their fields are classes. Each method is proved equal to a step on values or
to a function of the old state, and the properties are lemmas over all runs of those steps; ghost logs in
the objects tie their state to such a run.

Figures of time are `real`; a run's instants do not decrease, and are positive where the code takes zero
for "unset". The smoothing gain is any function into [0, 1], and `sqrt` any non-negative root. Random
draws, clock readings and replies of other machines are parameters. Where the obvious claim is false of the
code the model keeps the code, gives an input that shows it, and proves exactly when it holds:
`Intersection.MoreSurvivorsThanOverlap` with `Intersection.SurvivorsNumberTheOverlap`,
`Failover.HealthyPrimaryHeldOut` with `Failover.LeftUnservedExactly`, `Forgetting.ForgettingShows` with
`Forgetting.ForgettingShowsExactly`, and `NtpClient.RateCanSpeedUp` with `NtpClient.RateNeverSpeedsUp`.

In two places the repository says more than its code keeps. `README.md:1046` has a RATE slow the polling
down, but a peer configured to poll more slowly than 1024 s is polled faster after one. And
`src/RateLimiter.cpp:37-38` says that forgetting a bucket idle for so long loses nothing. Of its tokens that
holds always; of its kiss-o'-death it fails where one can be sent at all (it is on, and not every request over
the limit leaks through), a bucket fills in under a second, and there can be more clients than room.

## Model

| member | source | states |
|---|---|---|
| Candidates.CandidateIsSound | src/Selector.cpp:171-221 | an eligible source asserts an interval of positive width, never tighter than its own dispersion |
| Candidates.CarriedAlongItsLine | src/Selector.cpp:203-207 | a source that reads a line is carried to now along that line |
| Candidates.CandidateHoldsTheTruth | src/Selector.cpp:203-219 | if the offset was within the dispersion when read and has moved since at a rate within the doubt and the drift allowed, the interval asserted now holds it |
| Candidates.TighterWeighsMore | src/Selector.cpp:209-219 | whatever errors they claim, a source no lighter, weighed by no wider a figure and measured no longer ago than another has no smaller a share, and a larger one if it is better in any of these |
| Medians.MedianOfMajority | src/Selector.cpp:105-115 | median breakdown: the median lies in any range that holds a strict majority, whatever the rest say |
| Medians.MedianBeyond | src/Selector.cpp:105-115 | and if a strict majority lies beyond some bound, so does the median |
| Agreement.ExponentialSmooths | src/Selector.cpp:273-297 | a gain between 0 and 1 keeps a smoothed average between its old value and the new reading |
| Agreement.TwoPeersToConvict | src/Selector.cpp:299-304 | a source is judged, and so refused, only at a pass where it has at least two peers, and had them too at some pass at least 120 s before with no order to start over since; with fewer peers nothing is said of it |
| Agreement.JudgedExactly | src/Selector.cpp:273-304 | and it is judged exactly then |
| Agreement.AverageForgets | src/Selector.cpp:262-297 | however the passes fall, of a first reading that differs from all the others the average has left just what the decay leaves over the time those others account for; passes with too few peers, and the time up to them, count for nothing |
| Agreement.MajorityIsNeverRefused | src/Selector.cpp:259-307 | over every run: if at every pass judged a strict majority of the class, the source with it, lies within 15 ms of some value, the source is never refused |
| Agreement.MinorityIsRefused | src/Selector.cpp:259-307 | over every run: if since its average began a source has, wherever it had two peers, been over 30 ms + e to one side of a value that a strict majority of its class lay within e of, it is refused at every pass with two peers that comes 120 s or more after one, with no order to start over between |
| Agreement.CountIsOrdersInARow | src/Selector.cpp:307-338 | the backoff exponent is the number of re-acquire orders since the last accepting verdict |
| Agreement.OrdersAreApart | src/Selector.cpp:307-342 | two orders with no accepting verdict between them, the first being the n-th in a row, are at least 120 + min(300 * 2^n, 3600) s apart, across passes where the source is unjudged or absent |
| Agreement.SentBackExactly | src/Selector.cpp:307-342 | a source is ordered to start over exactly when it is refused and has been, with no acceptance and no order between, for min(300 * 2^n, 3600) s, n being the orders in a row so far |
| Failover.TimersMarkTheStretch | src/Selector.cpp:450-456 | the lost and healthy timers say exactly since when the primary has been unusable or usable without a break |
| Failover.SwitchExactly | src/Selector.cpp:473-496 | the class switches at a pass exactly when an unbroken stretch of the required length ends there and the other class can take over |
| Failover.HoldDownApart | src/Selector.cpp:473-496 | two successive switches are at least the hold-down of the second apart |
| Failover.SwitchesAreBounded | src/Selector.cpp:444-498 | in any stretch of time T there are at most 2*floor(T/(failoverAfter+failbackAfter))+2 switches |
| Failover.NeverDownWhileNeeded | src/Selector.cpp:507-534 | a cold standby is up whenever it serves or the primary is unusable |
| Failover.ColdUntilFirstLoss | src/Selector.cpp:507-524 | a cold standby stays down until the primary is first lost |
| Failover.StandsDownExactly | src/Selector.cpp:507-524 | a cold standby goes down at a pass exactly when the primary has then been usable without a break for failbackAfter |
| Failover.ComesUpExactly | src/Selector.cpp:507-524 | a cold standby comes up at a pass exactly when the primary is not usable at it |
| Failover.LeftUnservedExactly | src/Selector.cpp:473-498 | exactly when a pass with a usable class is left without a usable serving class |
| Failover.HealthyPrimaryHeldOut | src/Selector.cpp:488-498 | a concrete run in which a healthy primary is held out while the secondary is dead |
| Intersection.CollectEdges | src/Selector.cpp:575-592 | the edges are those of every candidate's interval, sorted, a closing edge before an opening one at the same place |
| Intersection.DeepestOverlap | src/Selector.cpp:592-596 | the sweep's best is the greatest number of half-open intervals over any real point, and is reached |
| Intersection.CollectRegions | src/Selector.cpp:598-611 | the regions are the stretches of greatest overlap, each starting where one does, in rising order |
| Intersection.PickRegion | src/Selector.cpp:616-646 | of tied regions the one nearest the served time, or with nothing served the one of greatest weight, the first of equals |
| Intersection.PickIsNearest | src/Selector.cpp:616-631 | a region that holds the served time is picked over every one that does not, and none is nearer it than the one picked |
| Intersection.PickIsWeightiest | src/Selector.cpp:632-644 | with nothing served the weight of the sources over the pick is no less than over any other region, and more than over any before it |
| Intersection.Intersect | src/Selector.cpp:567-664 | the survivors are exactly the candidates whose closed interval holds the picked region's low end, in order |
| Intersection.RegionIsFlat | src/Selector.cpp:598-611 | every point of a region is in as many intervals as its low end |
| Intersection.RegionsAreTheDeepest | src/Selector.cpp:598-611 | a point lies in the greatest number of half-open intervals exactly when it lies in one of the regions |
| Intersection.SurvivorsAgree | src/Selector.cpp:586-664 | the survivors are those whose closed interval holds the region's low end, number at least best, and outnumber it exactly by the intervals that end there |
| Intersection.SurvivorsNumberTheOverlap | src/Selector.cpp:586-664 | whatever is being served the survivors number the greatest overlap, exactly when no interval ends where another begins at a place that deep |
| Intersection.MoreSurvivorsThanOverlap | src/Selector.cpp:586-614 | two touching intervals: survivors outnumber best, so the closed and half-open tests do differ |
| Intersection.MajorityKeepsTheTruth | src/Selector.cpp:592-664 | if a strict majority of half-open intervals holds the truth, some survivor does |
| Intersection.OrderIndependent | src/Selector.cpp:575-664 | two orders of the same candidates give the same greatest overlap, regions and pick, and the same multiset of survivors |
| Combination.Combine | src/Selector.cpp:666-852 | the weighted answer of the survivors, each figure exactly: offset, dispersion, rate and the doubt in it (the larger of what the weights leave and what the measured rates show, or the most any survivor doubts its own), the least age, stratum, root figures by the first tightest survivor, class and leap warning |
| Combination.ClaimContainsCommonPoint | src/Selector.cpp:667-705 | offset +- dispersion holds every point that all the survivors' intervals hold, so the truth when each of them does |
| Combination.OneHonestSurvivor | src/Selector.cpp:692-705 | if one survivor's interval holds the truth the error is at most the spread plus its half-width |
| Combination.OffsetIsLeastSquares | src/Selector.cpp:667-681 | the offset is the one point that makes the sum of weight * distance^2 / quality^2 to the survivors least |
| Combination.RateIsLeastSquares | src/Selector.cpp:713-731 | the rate is the one that makes the sum of distance^2 / doubt^2 to the measured rates least |
| Combination.LoneSurvivor | src/Selector.cpp:667-852 | a source left alone is served as it is: its offset, error, rate and the doubt in it, stratum, path, class and warning are the answer's |
| Combination.OffsetInHull | src/Selector.cpp:675-681 | the offset lies within the hull of the survivors' offsets |
| Combination.RateInHull | src/Selector.cpp:717-731 | the rate lies within the hull of the measured rates |
| Combination.RootDistanceCovers | src/Selector.cpp:811-833 | root dispersion plus half the root delay is never below the dispersion |
| Combination.RootDistanceClaims | src/Selector.cpp:811-833 | with a radio source it is exactly the dispersion, and without one it exceeds it by no more than half the root delay exceeds the shortest of the survivors' own paths |
| Selector.Selector.Pass | src/Selector.cpp:158-941 | one pass, end to end: the pool is exactly the ready, fresh and unrefused snapshots of the class the latch chose (of both, where both always serve), carried to now; the answer is the pass's own exactly when enough survive, and is then of that class by the latch alone; a leap is warned of exactly when every survivor of a fresh answer warns of it; otherwise the last good one coasts. The state is that of the runs of the judge and the latch over all passes |
| Selector.PoolExactly | src/Selector.cpp:171-221 | a candidate is in the pool exactly when its snapshot may serve: ready, with an offset within its age limit and a dispersion, unrefused, and of the class the latch chose unless both serve |
| Selector.PassMeans | src/Selector.cpp:444-740 | what a pass then means without the steps it is made of |
| Selector.Selector.Gather | src/Selector.cpp:174-221 | the candidates of a class are its eligible snapshots, in order, carried to now |
| Selector.Selector.JudgeOne | src/Selector.cpp:261-342 | one source's average, verdict and backoff become what the judge's step makes of its memory; who is refused and when over a run is `Agreement.MinorityIsRefused`, `MajorityIsNeverRefused` and `JudgedExactly` |
| Selector.Selector.JudgeAll | src/Selector.cpp:223-369 | every source of both classes is judged against its own class, and no other source's memory changes |
| Selector.Selector.DropRefused | src/Selector.cpp:372-390 | exactly the refused candidates are dropped |
| Selector.Selector.ChooseClass | src/Selector.cpp:444-534 | the latch, the timers and the standby become what the failover step makes of them |
| Selector.Selector.Serve | src/Selector.cpp:726-865 | the answer is served and becomes the last good one |
| Selector.Selector.Coast | src/Selector.cpp:868-941 | with nothing usable the last good answer is carried on and kept as it was; with none nothing valid is served |
| Selector.MajorityIsNeverRefused | src/Selector.cpp:259-307 | the same for the selector's own log: a source with a majority of its candidates near it at every pass is never refused |
| Selector.MinorityIsRefused | src/Selector.cpp:259-390 | the same for the selector's own log of a source too far to one side of a majority: it is refused, and may not serve in either class |
| Selector.MajorityBoundsTheError | src/Selector.cpp:575-705 | if a strict majority of the pool's half-open intervals holds the truth, the served offset is off by at most its spread plus an honest survivor's half-width |
| Selector.OrdersAreApart | src/Selector.cpp:307-342 | over the selector's own log: two orders to one source with no pass at which it was accepted between them are apart by 120 s and the wait grown with the orders in a row |
| Selector.HonestAnswer | src/Selector.cpp:811-865 | a fresh answer and the last good one kept of it agree, and claim a root distance no less than the dispersion |
| Selector.CoastingKeepsTheClock | src/Selector.h:223 | while coasting utcAt is the same function of the daemon clock as at the last good pass |
| Selector.CoastHoldsTheTruth | src/Selector.cpp:877-893 | if the last good answer was within its claim and the offset has moved since at a rate within the doubt and the drift allowed, the coasted one is within its own; and it is synchronised exactly up to the coast limit |
| Selector.CoastingGoesOn | src/Selector.cpp:880-906 | the age goes on from where it was, and rate, stratum and root delay are the last good answer's |
| Selector.ReferenceIsServed | src/Selector.cpp:624-631 | the offset a tie is broken by is the one the last good answer serves at that instant |
| Selector.CoastStaysHonest | src/Selector.cpp:877-910 | a coasted answer claims no less than the last good one, and its root distance still covers its dispersion |
| Selector.CoastingDoubtGrows | src/Selector.cpp:891-893 | the dispersion of a coasted answer never falls as time goes on |
| LeastSquares.FittedIsLeast | src/OffsetEstimator.cpp:129-160 | the fitted line leaves the least sum of squares of all lines |
| LeastSquares.FitsALineExactly | src/OffsetEstimator.cpp:129-160 | points on a line are fitted by exactly that line, with nothing left over |
| RateFit.Ols | src/OffsetEstimator.cpp:129-160 | least squares by accumulating loops: the slope, extent and squares of the points kept, and failure exactly when there is no line |
| RateFit.BlockSums | src/OffsetEstimator.cpp:177-187 | the two arrays hold each block's sum of residuals and its count |
| RateFit.FitLine | src/OffsetEstimator.cpp:125-202 | the fit, its trimming at five sigma and its doubt from the blocks |
| RateFit.LineIsNotTrimmed | src/OffsetEstimator.cpp:166-173 | points on a line are all kept |
| RateFit.TrimmingIsBounded | src/OffsetEstimator.cpp:161-173 | where most residuals lie bounds the trimming both ways: what is kept is within 5 * 1.4826 times their range of it (0.5 ms at the least), and what is within 0.5 ms of all of it is kept |
| RateFit.StandsExactly | src/OffsetEstimator.cpp:175-201 | a fit stands exactly when what is kept is enough in number and span and fills enough blocks, the blocks being stretches of time from the first point on |
| RateFit.DoubtCovers | src/OffsetEstimator.cpp:151-197 | sigma is the root of the mean square left; the doubt is never below the textbook one, nor with blocks enough below what the scatter of their mean residuals does over the span |
| RateFit.LineStandsExactly | src/OffsetEstimator.cpp:125-202 | of points on a line the fit stands exactly when they are enough, and then with no doubt |
| RateFit.FitOfALine | src/OffsetEstimator.cpp:125-202 | a fit of points on a line is that line |
| OffsetEstimator.OffsetEstimator.Add | src/OffsetEstimator.cpp:206-213 | the sample is appended, the newest instant moves on, and what is older than the rate window is trimmed from the front |
| OffsetEstimator.TrimIsTheWindow | src/OffsetEstimator.cpp:209-211 | on samples in order the trimming leaves exactly those in the window |
| OffsetEstimator.OffsetEstimator.Clear | src/OffsetEstimator.cpp:215-229 | samples, jitter history and any hold are forgotten; the counters are not |
| OffsetEstimator.OffsetEstimator.Estimate | src/OffsetEstimator.cpp:231-235 | recomputed exactly when a sample has arrived, and then as specified |
| OffsetEstimator.FitDroppingSteps | src/OffsetEstimator.cpp:245-277 | the loop of two attempts drops history at most once, and fits what is left; when it does is `StepIsFound`, `NoStepIsFound` and `NothingToStepFrom` |
| OffsetEstimator.StepIsFound | src/OffsetEstimator.cpp:245-277 | if most of the short window is further to one side of the fitted line than max(10 ms, 4 sigma / sqrt n), or the line is steeper than 500 ppm, exactly the short window is kept and one step counted |
| OffsetEstimator.NoStepIsFound | src/OffsetEstimator.cpp:245-277 | if most of it is within that and the line is not, everything is kept |
| OffsetEstimator.NothingToStepFrom | src/OffsetEstimator.cpp:260-262 | nor is anything dropped with no fit, or with nothing older than the short window |
| OffsetEstimator.RateUsedExactly | src/OffsetEstimator.cpp:279-293 | the fit's own rate if it is within 500 ppm and known to 25 ppm; else the one lent; else none, doubted by 50 ppm |
| OffsetEstimator.LiveSays | src/OffsetEstimator.cpp:295-316 | the short window's samples are counted, and are enough or not; where most of them lie once carried bounds the level and the jitter, from above and from below |
| OffsetEstimator.RateTermCovers | src/OffsetEstimator.cpp:311-315 | the rate term covers what a rate within its doubt of the crystal's does to the mean of the samples carried |
| OffsetEstimator.LevelFrom | src/OffsetEstimator.cpp:279-318 | the live level, jitter and rate of the short window |
| OffsetEstimator.LevelError | src/OffsetEstimator.cpp:297-309 | if a strict majority of the short window lies within eps of a line of slope b, the level is within eps + abs(rate - b) * window of it, whatever the rest and whatever the rate |
| OffsetEstimator.FittingOnTrack | src/OffsetEstimator.cpp:249-277 | on samples on a line of a crystal's slope no history is dropped, and a fit is that line |
| OffsetEstimator.MeasuredOnTrackExactly | src/OffsetEstimator.cpp:245-284 | and the rate counts as measured on them exactly when the slope is within 500 ppm and they are enough in number, span and blocks |
| OffsetEstimator.EstimateOnTrack | src/OffsetEstimator.cpp:237-320 | on samples on a line the live level is off by at most abs(rate - b) * window; a measured rate is exactly b and the level then exact at every instant |
| OffsetEstimator.EstimateIsPublished | src/OffsetEstimator.cpp:316-408 | the level published is the hold's exactly when holding is on and the samples are enough, and is the live one and the gap left to rejoin unless held |
| OffsetEstimator.HeldTermCovers | src/OffsetEstimator.cpp:396-400 | while held the rate term covers how far a crystal within the doubt of the rate used has left the held level since the last calm reading |
| SpikeHold.HoldThroughSpikes | src/OffsetEstimator.cpp:325-408 | the hold's step: baseline, threshold, hold, release, timeout and rejoin |
| SpikeHold.BeginsExactly | src/OffsetEstimator.cpp:362-368 | outside a hold one begins at exactly the spikes (over 0.1 ms and over five times the usual jitter) that come within 300 s of the latest calm reading, none released since |
| SpikeHold.PublishedWhileHeld | src/OffsetEstimator.cpp:369-400 | from its first reading to its last a hold publishes what was published at the latest calm reading, carried along the rate used |
| SpikeHold.HeldStaysOnTheLine | src/OffsetEstimator.cpp:369-400 | so a level calm on a line of that rate stays on it through the spike |
| SpikeHold.ReleasesExactly | src/OffsetEstimator.cpp:377-395 | a hold is released at exactly the first reading 600 s after it began or that ends 60 s of quiet ones |
| SpikeHold.TimesOutExactly | src/OffsetEstimator.cpp:384-394 | and counts as timed out exactly when that is with less than 60 s of quiet |
| SpikeHold.HoldsAreCounted | src/OffsetEstimator.cpp:362-368 | every hold begun is counted |
| SpikeHold.HoldEnds | src/OffsetEstimator.cpp:377-398 | every hold has ended by the first recompute 600 s or more after it began |
| SpikeHold.ReleaseIsNoStep | src/OffsetEstimator.cpp:384-401 | at release the level published is the held one, the live level plus the gap then slewed out at 1/60 of it, or 10 us, a second |
| SpikeHold.PublishedIsLivePlusGap | src/OffsetEstimator.cpp:355-360 | outside a hold the level published is the live one plus what is left of the gap |
| SpikeHold.GapShrinks | src/OffsetEstimator.cpp:355-359 | until the next release the gap left is the gap at release less the slew over all the time since |
| SpikeHold.GapCloses | src/OffsetEstimator.cpp:355-391 | it keeps its sign, never grows, and is exactly zero within 60 s |
| SpikeHold.CalmBetweenHolds | src/OffsetEstimator.cpp:362-395 | no hold begins after another, timed out or not, without a calm reading between, a reading taken while there is too little jitter history to judge by counting as calm whatever its jitter |
| SpikeHold.HistoryBeforeAnyHold | src/OffsetEstimator.cpp:332-353 | nothing is held before the source has 60 records ten seconds apart, all from the last half hour |
| SpikeHold.HistoryIsTaken | src/OffsetEstimator.cpp:332-341 | what a spike is judged against is exactly the records of the last half hour, one taken of each reading outside a hold that comes ten seconds or more after the one before |
| CivilTime.DayNumberToDate | src/CivilTime.h:20-40 | every day number names a valid date, whose number it is |
| CivilTime.DateToDayNumber | src/CivilTime.h:20-40 | every valid date is named back by its day number |
| CivilTime.NextDayIsOneMore | src/CivilTime.h:20-27 | the calendar's next day has the next number |
| CivilTime.Epoch | src/CivilTime.h:20-40 | day 0 is 1 January 1970 |
| CivilTime.DaysInOrder | src/CivilTime.h:20-27 | a later date has a larger number |
| CivilTime.FloorIs | src/CivilTime.h:45-49 | division and remainder corrected for truncation are the floored ones, for negative instants too |
| CivilTime.MonthEnds | src/CivilTime.h:118-124 | an instant is told to be in the last day of a month exactly when its date is one |
| CivilTime.HostFieldsRoundTrip | src/CivilTime.h:54-57 | taken apart and put together an instant is floored to the minute, exactly when its year is 2000 to 2099 |
| Pps.PpsLabeler.Next | src/Pps.cpp:165-190 | a call's label and the labeller's state, with the run of all calls kept |
| Pps.LabelledExactly | src/Pps.cpp:165-190 | what every call names, by the calls and the labels before it: the served second, where the count is not under way; 23:59:60, where it is due; the next second, where the clock serves it or within 3600 s of an inserted one is a second ahead; else the served second, counted as a resync |
| Pps.LabelsSucceed | src/Pps.cpp:172-189 | a label that carries the count on is the successor of the last on the leap-second scale, and is 23:59:60 exactly when one is due |
| Pps.LeapOnlyWhenDue | src/Pps.cpp:172-181 | 23:59:60 comes only after 23:59:59 and before a first-of-month midnight, with a warning seen at most 7200 s before it |
| Pps.LabelsIncrease | src/Pps.cpp:165-190 | while the count is carried on no second is named twice |
| Pps.RenderedIncrease | src/Pps.cpp:48-59 | the civil fields rendered strictly increase along such a run |
| Pps.DaemonAtUtcInverts | src/Pps.cpp:192-194 | the daemon instant of a UTC is the one instant at which the served clock reads it |
| Timeline.Source.FeedSilence | src/Source.cpp:1174-1185 | in pieces of a second, exactly that many samples are added |
| Timeline.Source.TrackTimeline | src/Source.cpp:1210-1309 | what a frame's stamp does to the baseline, the block and the count |
| Timeline.BlockClosesExactly | src/Source.cpp:1254-1299 | on any stamps: a block's step is filled exactly when over half a frame, at most 1.5 s and, of a capture, whole frames to 50 us; by the nearest whole frames; longer steps and steps back over 0.1 s are counted; the drift is then reckoned from where the filling leaves it |
| Timeline.KeepsInStep | src/Source.cpp:1210-1309 | on equal frames with exact stamps and any losses of whole frames: the exact count, baseline and block minimum after every frame |
| Timeline.NeverAhead | src/Source.cpp:1248-1309 | the count is never ahead of the stream's own, and is level with it exactly when nothing is outstanding or given up |
| Timeline.LossesMadeGood | src/Source.cpp:1254-1299 | while no block loses over 1.5 s every loss is made good by the end of the next block, and the timing is never discarded |
| UtcAnchor.UtcAnchor.OnClockTime | src/Source.cpp:1999-2052 | a frame anchors an edge unless a possible inserted second lies between or the time is not admitted |
| UtcAnchor.UtcAnchor.OnClockSecond | src/Source.cpp:2149-2187 | an edge is dated by whole seconds from the anchor, or the anchor is dropped |
| UtcAnchor.EdgeIsDatedExactly | src/Source.cpp:2158-2166 | an edge is taken for the one so many seconds on exactly when within a quarter of a second of samples of where that is due |
| UtcAnchor.BoundaryIs | src/Source.cpp:1992-1995 | the boundary is the next midnight exactly when that begins a month |
| UtcAnchor.CountingIsSafeExactly | src/Source.cpp:2168-2187 | the count from an anchor names an edge rightly wherever seconds may be inserted exactly when it does not cross the boundary |
| TimeContinuity.TimeContinuity.Judge | src/TimeContinuity.cpp:32-79 | a verdict and the state after it, with the run of all events kept; which verdict, by that run alone, is `VerdictsExactly` |
| TimeContinuity.TimeContinuity.NoteFiltered | src/TimeContinuity.cpp:81-86 | the filtered offset becomes the history, and what is pending stays |
| TimeContinuity.VerdictsExactly | src/TimeContinuity.cpp:7-79 | over every run, by the events alone: a time within 0.5 s + 50 ppm of the history last filtered or begun is accepted, on either side; one a second off in a leap window is admitted as that; any other, either way, only once six (or, with no history, three) readings that each agree with the one before span 600 s (115 s) |
| TimeContinuity.AdoptionTakesAgreement | src/TimeContinuity.cpp:7-79 | adoption only after 6 successive readings over 600 s, and a first history only after 3 over 115 s, each agreeing with the one before and none admitted before |
| TimeContinuity.NoWrongHistorySticks | src/TimeContinuity.cpp:32-79 | of 6 or more successive agreeing readings over 600 s one is admitted, the last at the latest |
| IpPrefix.Mask | src/IpPrefix.h:47-54 | everything past the prefix is cleared, byte by byte |
| IpPrefix.MaskedAlike | src/IpPrefix.h:47-54 | two addresses are masked alike exactly when they have one family and agree on the prefix's bits |
| IpPrefix.ContainsExactly | src/IpPrefix.h:60-62 | a prefix contains exactly the addresses of its family that share its bits |
| RateLimiter.RateLimiter.CheckRequest | src/RateLimiter.cpp:21-101 | a verdict and the buckets after it, with the run of all requests kept |
| RateLimiter.RateLimiter.Sweep | src/RateLimiter.cpp:42-49 | the erasing loop leaves exactly the buckets idle for no longer than the limit |
| RateLimiter.AnswersAreBounded | src/RateLimiter.cpp:21-101 | with every client tracked, the answers to one client in a window of length T number at most burst + T/interval |
| RateLimiter.AnsweredExactly | src/RateLimiter.cpp:21-101 | with every client tracked, a request is answered exactly when over every stretch ending with it the answers before it and one more are within burst + T/interval |
| Forgetting.ForgettingIsUnobservable | src/RateLimiter.cpp:41-101 | over every run in which each client finds room: each verdict is that of a limiter that never forgets, if no sweep at the cap has been, or no kiss-o'-death can be sent, or burst * interval is a second or more |
| Forgetting.RefusedExactly | src/RateLimiter.cpp:90-100 | of a limiter that never forgets: a request over the limit leaks if drawn to; else is sent a kiss-o'-death exactly when that is on and its client was sent none in the last second, nor in the last interval; else is dropped |
| Forgetting.KodsAreApart | src/RateLimiter.cpp:93-98 | no client is sent two kisses-o'-death within a second, nor within an interval |
| Forgetting.CapSweepShows | src/RateLimiter.cpp:52-101 | otherwise, if there are more than 100000 possible clients, a run of the limiter from its start has a verdict of a second kiss-o'-death where one that never forgets drops the request |
| Forgetting.ForgettingShowsExactly | src/RateLimiter.cpp:37-101 | some run in which each client finds room has a verdict that forgetting changes, exactly when a kiss-o'-death can be sent, burst * interval is under a second and there are more than 100000 possible clients |
| Forgetting.OrdinarilyCrowded | src/RateLimiter.cpp:29-32 | with no exemption and an IPv4 prefix of 24 bits or more there are that many clients |
| Forgetting.ForgettingShows | src/RateLimiter.cpp:37-101 | at an interval of half a second, a burst of one and a kiss-o'-death such a run exists |
| RateLimiter.OneClient | src/RateLimiter.cpp:29-32 | two addresses share a bucket exactly when they have one family and agree on its prefix |
| Events.EventLog.Add | src/Events.cpp:182-188 | the event gets the next id, the ring keeps the newest hundred, and its type's count goes up |
| Events.EventLog.All | src/Events.cpp:190-193 | the ring's events, newest first |
| Events.EventLog.CountOf | src/Events.cpp:200-206 | the count of a type is over every event ever, not those in the ring |
| Mqtt.UnsentIsTheTail | src/Mqtt.cpp:487-491 | read back from the newest, what is unsent is the tail of all events from where the publisher was or from the oldest left |
| Mqtt.EveryRunIsGood | src/Mqtt.cpp:481-504 | with events recorded anywhere between steps: acknowledged ids strictly increase, the last id done with is acknowledged + lost, and what was passed over had been overwritten |
| Mqtt.MqttPublisher.PublishEvents | src/Mqtt.cpp:481-504 | one round of publishing is the steps of a round, events recorded by others in the middle of them, and keeps all of that |
| Mqtt.RoundPublishes | src/Mqtt.cpp:474-504 | a round with something to publish counts what the ring had lost and publishes of the rest, oldest first, exactly as many as there are tokens and the receiver takes: no fewer |
| Mqtt.MqttPublisher.Reconnected | src/Mqtt.cpp:263-270 | a receiver found fills the budget |
| NtpClient.OffsetIsWithinHalfTheDelay | src/NtpClient.cpp:860-876 | for any legs and any hold at the server the offset is within half the round trip of the server's; with the asymmetry configured it is exact |
| NtpClient.NtpPeer.FilterAdd | src/NtpClient.cpp:952-1049 | the register shifts in place and the new sample is handed on or not, with the run of all replies kept; which are handed on is `HandedOnExactly` |
| NtpClient.OneOfThree | src/NtpClient.cpp:1024-1048 | of any three replies accepted in a row at least one is handed on, across moves and dropped timing |
| NtpClient.HandedInOrder | src/NtpClient.cpp:1044-1048 | each sample is handed on at most once, and in order |
| NtpClient.HandedOnIsCleanOrThird | src/NtpClient.cpp:1024-1048 | one handed on passes the delay gate or is the third slow one in a row |
| NtpClient.HandedOnExactly | src/NtpClient.cpp:1017-1048 | over every run, by the round trips of the last eight replies since the register was emptied: one is handed on exactly when its own is within max(2 ms, the quickest, 3 times their quickest quarter's spread) of the quickest, or the two before it were held back |
| NtpClient.SpikesAreHeldBack | src/NtpClient.cpp:1017-1038 | so with over a quarter of them within w of the quickest m, one over m + max(2 ms, m, 3w) is handed on only after two held back, and one within max(2 ms, m) always is |
| NtpClient.RateNeverSpeedsUp | src/NtpClient.cpp:806-816 | a RATE never shortens the interval exactly when it was at most 1024 s; it at least doubles it, and grants what was asked, up to that cap, and goes beyond neither |
| NtpClient.RateCanSpeedUp | src/NtpClient.cpp:812-816 | a peer configured to be polled every 4096 s is polled every 1024 s after any number of RATEs |
| NtpClient.NtpPeer.OnRateKiss | src/NtpClient.cpp:798-817 | the interval backed off to |
| NtpClient.NtpPeer.OnGoodReply | src/NtpClient.cpp:900-922 | the interval eased after eight good replies |
| NtpClient.NoPeerStaysSlow | src/NtpClient.cpp:900-922 | however it was backed off, 56 good replies in a row put back a poll of eight seconds or more |
| NtpTime.FromNtp | src/NtpClient.cpp:133-142 | the loops over eras find the instant a stamp can mean nearest the one known |
| NtpTime.StampRoundTrip | src/NtpServer.cpp:45-55 | a stamp is read back as the instant it was made for, to its last bit, by any clock under 68 years out |
| MinuteRing.Advance | src/ClientTally.cpp:19-28 | after any gap the ring holds the exact counts of the last sixty minutes |
| MinuteRing.SumHour | src/ClientTally.cpp:32-40 | the sum is that of the past hour, from a ring last moved on at any earlier minute |
| MinuteRing.TallyIsCount | src/ClientTally.cpp:32-40 | unsaturated counters add up to the exact number of requests in the window |
| ClientTally.ClientTally.Record | src/ClientTally.cpp:42-71 | a request is counted for its client and no other; a new one goes uncounted only when the map is full of clients with more than one request in the past hour, or was swept within the second |
| ClientTally.ClientTally.Sweep | src/ClientTally.cpp:51-59 | only clients with at most one request in the past hour are dropped |
| ClientTally.ClientTally.PastHourOf | src/ClientTally.cpp:73-84 | a held client's requests in the past hour, and those over the limit, are each exactly as many as were counted, while none of the hour's minutes overflows a counter |
| HourCounter.HourCounter.AdvanceMinutes | src/NtpServer.cpp:549-556 | the minutes skipped are cleared, all of them at the most |
| HourCounter.HourCounter.Count | src/NtpServer.cpp:558-562 | one more in the current minute and in all |
| HourCounter.HourCounter.PastHour | src/NtpServer.cpp:564-583 | all buckets together are exactly the requests of the last sixty minutes |
| Metrics.BucketsAreExact | src/Metrics.cpp:11-30 | each bucket has the exact sum, least, greatest and number of its samples, and none is missing |
| Metrics.MetricTier.Add | src/Metrics.cpp:11-30 | the tier keeps the newest of the buckets an unbounded one would have |
| Metrics.MetricTier.Points | src/Metrics.cpp:32-44 | the buckets of the window are exactly those of an unbounded tier |
| StateTimeline.StateTimeline.Set | src/Metrics.cpp:75-86 | the changes kept after a report: no more of the older are dropped than the period and the cap require, and whether the cap took any |
| StateTimeline.StateTimeline.Since | src/Metrics.cpp:88-97 | the spans given back say of every instant since the oldest change kept, and below the cap of every instant of the last 25 h, what all the reports do |
| StateTimeline.HistoryIsExact | src/Metrics.cpp:75-97 | the same of the values themselves |
| CaptureClock.CaptureClock.Observe | src/SampleClock.cpp:252-259 | over the whole stream since the rate was set or a mark went back: the marks kept strictly increase, and are exactly those of the stream within the history of the newest |
| CaptureClock.CaptureClock.LowerBound | src/SampleClock.cpp:265-268 | bisection finds the first mark not before the sample |
| CaptureClock.CaptureClock.HostTimeAt | src/SampleClock.cpp:261-283 | the answer is by the mark a scan of all would find nearest, and there is none exactly when every mark is over two seconds off |
| CaptureClock.NearestIsAtTheBound | src/SampleClock.cpp:265-275 | the nearest mark is at the bound or just before it, the earlier of two as near |

## Left out

- Sockets, threads, HTTP, WebSocket, DNS, serial ports and the retry and reconnection timing around them: plumbing.
- The radio decoders, the PCM codec, the propagation and uncertainty models and the configuration parser: not part of this model; the configuration's validated ranges appear as preconditions.
- Names, notes, reasons, log lines, JSON and NMEA text, the reference identifier and the station that names it, and the figures kept for display only (the difference between the classes, the filter's jitter, the estimator's baseline and threshold): they decide nothing.
- Floating-point rounding and the width of counters, except where the code's arithmetic wraps or saturates on purpose: the calendar's unsigned figures, the signed difference of 64-bit stamps, the saturating counters of a client, the 32 bits of an NTP timestamp.
- The value of the exponential in the judge's average: any gain between 0 and 1 is allowed, which is all the proofs take of it, and of how fast it forgets that what is left compounds.
- The lower envelope of `SampleClock` and the guard on the host's slew: their figures are estimates, and nothing exact is promised of them.
- The order of the top clients, the topic segments of the MQTT publisher and the entity list: formatting.
- The token budget of the MQTT publisher decides only when an event is sent; how many it lets through in a time is the limiter's property again and is not restated.
- Mutual exclusion: each object's operations are taken one at a time, except that events may be recorded between any two steps of a publishing round.
- HourCounter.HourCounter.Count: one of the server's seven counters, which all move alike; the status page's hour counter is the same ring again.
- UtcAnchor.UtcAnchor.OnClockTime: the mapping of the edge to the daemon clock is not part of it, and the continuity verdict is a parameter; incomplete frames, and edges with no capture time, never reach it.
- Timeline.KeepsInStep: for frames of one length with exact stamps; with jittering stamps the block minimum is an estimate, and only the step on any stamp is specified.
