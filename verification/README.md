# Network monitor: verified model of the alarm pipeline

This project models the parts of a network monitor in which a mistake would be
hard to see, and proves what they keep over every input and every run.

- **Alarms.** Counter and optical samples are evaluated by a stateless engine
  over a persisted store of alarms and suppressions; operators acknowledge,
  suppress and release; interface transitions open and resolve link alarms; media
  notifications are sent with retries. `AlarmStore` holds the rows and the
  repository calls on them, `AlarmChecks` what one evaluated series does during a
  pass, `AlarmPassLaws`, `AlarmPassOutcome` and `AlarmPassIdempotence` what a pass
  does as a whole, `AlarmEngine` the engine itself, `AlarmEngineLaws` its guarantees,
  `AlarmRows`, `CounterAlarms` and `OpticalAlarms` what the two passes do to the rows, said
  of samples, readings, rules and columns alone,
  `InterfaceAlarms` and `AlarmSuppression` the other two services, `AlarmRuns` whole
  runs, `AlarmNotification` the notifier. `Fingerprint` is the key that ties an alarm to
  its suppression. `OpticalSeries` builds the series; `MetricWindow`, `OpticalLadder`
  and `OpticalTrend` are the decisions on samples.
- **Operational occurrences.** `OccurrenceRules`, `Occurrences`, `OccurrenceLaws` and
  `OccurrenceAccounting`: episodes of counter errors, with late samples, replays,
  acknowledgement and quiet closing.
- **Algorithms beside them.** `History` (roll-up of metric history), `AlertCenter`
  and `AlertCenterLaws` (pages merged from two sources), `LinkLayout` (parallel links),
  `Topology` and `TopologyLaws` (LLDP adjacencies), `RenderQueue` (bounded queue),
  `PngUnfilter` (scanline unfilter against section 6 of RFC 2083).
- **Shared.** `Options`, `Numbers`, `Text`, `Slices`, `Sorting`, `Grouping`.

Services that change state are classes over the store they share; each of their
methods equates the new state with a function of the old one, and the lemmas are
about those functions; the main ones say what the functions do without naming them, on
sample fields, positions and columns. Time is an integer number of milliseconds, dBm and rates are
reals, ids are strings. What a repository answers (linked interfaces, the rows a
housekeeping query returns, the order of a sort that the language leaves open) and
what a transport answers are parameters.

## Where the code and its documentation differ

- **A recovered optical series can be in alarm.** With a proximity window published,
  recovery does not look at the drop, so a steep fall to a healthy level is MAJOR
  and recovered at once (`OpticalLadder.SteepFallIsMajorAndRecovered`). A series
  recovers and triggers together only through a drop
  (`AlarmEngineLaws.OnlyADropReopens`), so a quiet recovery lasts
  (`AlarmRuns.QuietRecoveryStaysResolved`).
- **Resolution does not name the rule.** `resolveMetricAlarm` ends the alarms of
  every rule on the series; with two rules a pass can end an alarm that the next
  pass opens again (`AlarmPassLaws.TwoRulesAreNotIdempotent`). A pass is idempotent on
  every safe store exactly when no rule calls a series recovered that a rule on it
  would open (`AlarmPassIdempotence.IdempotentExactly`), and a series fares as its own
  samples decide exactly when the other rules leave it undisturbed
  (`AlarmPassOutcome.OutcomeExactly`). Safety, and that a suppressed series is not
  opened, ask for nothing of the kind.
- **Alert centre pages.** The comparator orders by last activity, the database by
  the time of acknowledgement or end, so a row can appear twice and another never
  (`AlertCenter.AcknowledgedAlarmIsSkipped`). All pages are exact exactly when no row
  stands deeper in its own source than in the sorted union
  (`AlertCenterLaws.PagesAreExactExactly`); that both sources deliver in page order is
  enough (`AlertCenter.PageIsExact`), and for a single source in database order it is
  necessary too (`AlertCenterLaws.AlarmPagesAreExactExactly`,
  `AlertCenterLaws.OccurrencePagesAreExactExactly`).
- **The drop is not monotone.** A higher latest reading can mean a larger drop, when
  it stops its neighbour from counting as a spike; exactly when, says
  `OpticalTrend.RaisingRaisesTheDropExactly`.
- **Two occurrence episodes can be open.** Being current is judged by the clock,
  superseding by the sample's time. At most one episode is *current*; a late sample
  leaves two *open* (`OccurrenceLaws.TwoEpisodesStayOpen`, with the exact condition).
- **Replays.** Ingestion is described as idempotent by interface, time and type. It
  never counts a sample twice, but a sample ignored as too old is not recorded, and a
  replay counts it exactly when a newer episode is current by then
  (`OccurrenceLaws.IgnoredSampleCountsOnReplay`). Totals do not depend on the order of a
  batch, the beginning of the episode does
  (`OccurrenceLaws.BeginningsAgreeExactly`).
- **Notification retries.** The cooldown holds after a failure the transport
  reports; a transport that throws leaves none
  (`AlarmNotification.OnlyAThrowIsForgotten`), and a restart forgets it
  (`AlarmNotification.RestartForgetsTheCooldown`). Announcing at most once survives
  restarts.
- **Self reflections.** LLDP neighbours that point back at their own device are
  dropped before two sources are merged, not after
  (`TopologyLaws.MergingCanReflect`). It takes a direction sighted twice whose primary
  lacked a field (`TopologyLaws.OnlyAFilledGapReflects`), and it is possible exactly
  when the merged neighbour was never sighted as such
  (`TopologyLaws.MergingReflectsExactly`).
- **Untrue optical reason.** A transceiver whose Low Alarm lies above its Low Warning
  can be given a reason its sample does not meet
  (`OpticalLadder.WrongWindowExample`, exact condition in
  `OpticalLadder.ExplanationIsTrueExactly`).

## Model

| member | source | states |
|---|---|---|
| Fingerprint.IsExact | packages/shared/src/alarm-suppression.ts:56-64 | two fingerprints are equal exactly when interface, type and (unless the link is down) rule and metric are, provided ids hold no separator |
| Fingerprint.SeparatorBreaksIt | packages/shared/src/alarm-suppression.ts:56-64 | a separator inside an id makes two different alarms share a key |
| AlarmStore.KeyIsTarget | apps/api/src/infrastructure/alarms/prisma-alarm-repository.ts:257-272 | rows with one fingerprint are exactly the rows the repository takes for the same alarm when it refuses to open a second one |
| AlarmStore.OpeningIsSafe | apps/api/src/infrastructure/alarms/prisma-alarm-repository.ts:257-310 | opening an alarm whose fingerprint is not suppressed keeps the invariant: one open alarm and one active suppression at most per fingerprint, never both |
| AlarmStore.SuppressingIsSafe | apps/api/src/application/alarm-suppression-service.ts:142-176 | creating a suppression and then ending what it covers keeps the invariant |
| AlarmStore.ClearingIsSafe | apps/api/src/infrastructure/alarms/prisma-alarm-suppression-repository.ts:106-139 | every way of clearing suppressions keeps the invariant |
| AlarmStore.TimePasses | packages/shared/src/alarm-suppression.ts:70-80 | the invariant survives the clock: suppressions only lapse |
| AlarmChecks.StepIsSafe | apps/api/src/application/alarm-engine.ts:835-941 | whatever a series' samples say, evaluating it keeps the invariant and rewrites no history |
| AlarmChecks.PassIsSafe | apps/api/src/application/alarm-engine.ts:835-941 | so does a whole pass over any list of series |
| AlarmPassOutcome.PassOutcome | apps/api/src/application/alarm-engine.ts:835-941 | what a pass does to each series, whatever other rules watch it: an open alarm ends exactly when some rule on the series whose alarm was open has recovered, and else keeps its row with the severity raised; a free series is open in the end exactly when it triggers and no such rule comes after; a suppression is lifted exactly when it waits for recovery and recovery is there |
| AlarmPassOutcome.OutcomeExactly | apps/api/src/application/alarm-engine.ts:835-941 | on every safe store a pass does to a series what its own samples alone decide exactly when, wherever another rule on it recovered, this one has recovered too and either opens nothing or comes later |
| AlarmPassIdempotence.PassIsIdempotent | apps/api/src/application/alarm-engine.ts:835-941 | the same pass again, on the same samples and clock, changes no row, as long as no rule calls a series recovered that a rule on it would open |
| AlarmPassIdempotence.IdempotentExactly | apps/api/src/application/alarm-engine.ts:835-941 | over all safe stores that condition is exactly what idempotence asks |
| AlarmPassIdempotence.ClashIsNotStable | apps/api/src/application/alarm-engine.ts:923-928 | for any list of series with such a pair of rules, a store on which the pass is not idempotent |
| AlarmPassIdempotence.PassDecides | apps/api/src/application/alarm-engine.ts:835-941 | a pass leaves a recovered series closed and a triggering one open or suppressed, if no rule on that series recovers while this one would open |
| AlarmPassIdempotence.DecidedExactly | apps/api/src/application/alarm-engine.ts:835-941 | over all safe stores that condition is exactly what it takes |
| AlarmPassLaws.SuppressedIsNotOpened | apps/api/src/application/alarm-engine.ts:851-861 | a series suppressed when the pass began is not open when it ends, even if the pass lifted the suppression, whatever other rules watch the series |
| AlarmPassOutcome.UndecidedSeriesFlaps | apps/api/src/application/alarm-engine.ts:835-941 | in a pass over any list, a series that recovers and triggers at once and is not ended by a later rule is opened by one pass and ended by the next |
| AlarmPassLaws.TwoRulesAreNotIdempotent | apps/api/src/application/alarm-engine.ts:923-928 | two rules on one series: a pass ends both alarms and the next one opens one again |
| MetricWindow.EvaluateWindow | apps/api/src/application/alarm-engine.ts:1170-1207 | one evaluation for each pair of neighbouring samples, in order |
| MetricWindow.EvaluationIsExact | apps/api/src/application/alarm-engine.ts:262-295 | a pair counts exactly when time advanced, a delta was collected and the counter did not fall, or wrapped plausibly; rate times minutes is the delta |
| MetricWindow.StreakIsConsecutive | apps/api/src/application/alarm-engine.ts:305-314 | the tail check holds exactly when a streak counter, reset on every mismatch or invalid pair, has reached the required number |
| MetricWindow.WindowRefinesCounter | apps/api/src/application/alarm-engine.ts:767-771 | on any window of the stream the stateless check decides what the counter kept over the whole stream decides, as soon as the window holds enough pairs: a restart changes nothing |
| MetricWindow.TriggerExcludesRecovery | apps/api/src/application/alarm-engine.ts:297-303 | no rate triggers and recovers at once exactly when the recovery limit lies below the threshold (or both ask for no occurrence) |
| MetricWindow.NeverTriggeredAndRecovered | apps/api/src/application/alarm-engine.ts:305-314 | with such limits no window sustains both |
| OpticalLadder.LadderIsMonotone | apps/api/src/application/alarm-engine.ts:146-203 | less light or a larger drop never lowers the severity, through window choice, clamp, margin and Low Alarm |
| OpticalLadder.RecoveredLeavesOnlyTheDrop | apps/api/src/application/alarm-engine.ts:206-219 | with coherent thresholds a recovered sample is on the ladder exactly as far as its drop puts it, so with a quiet trend it is on no rung |
| OpticalLadder.RecoveryGapIsNeeded | apps/api/src/application/alarm-engine.ts:140-178 | without a gap between the recovery and the warning limit some level is recovered and on the ladder |
| OpticalLadder.SteepFallIsMajorAndRecovered | apps/api/src/application/alarm-engine.ts:206-219 | a steep fall to a healthy level is MAJOR and recovered at once |
| OpticalLadder.TargetIsHighestSustained | apps/api/src/application/alarm-engine.ts:1081-1083 | the target is the highest severity at or above which as many of the latest samples in a row have been as that severity asks for, at least one |
| OpticalLadder.SustainedIsRun | apps/api/src/application/alarm-engine.ts:221-231 | a severity is sustained by n samples exactly when n is at least one and the run of latest samples at or above it is n long or longer |
| OpticalLadder.RecoveryIsRun | apps/api/src/application/alarm-engine.ts:1047-1048 | recovery is sustained exactly when the run of latest recovered samples is long enough; asked for no samples it wants every one |
| OpticalLadder.TargetIsShownByTheLatest | apps/api/src/application/alarm-engine.ts:1081-1088 | a sustained severity is never above what the latest sample shows, and the latest sample shows one |
| OpticalLadder.ExplanationIsTrue | apps/api/src/application/alarm-engine.ts:425-475 | for every target the latest sample shows, the published reason is among the criteria it meets, the measured value reaches the published limit, and the final fallback is not reached |
| OpticalLadder.ExplanationIsTrueExactly | apps/api/src/application/alarm-engine.ts:425-475 | without assuming Low Alarm below Low Warning: the reason is true exactly when the sample is not at its Low Alarm explained under a lower target by a window that does not see it as near |
| OpticalLadder.PublishedValueIsMeasured | apps/api/src/application/alarm-engine.ts:425-475 | the published value is the measured one to the second decimal, a drop exactly |
| OpticalLadder.WrongWindowExample | apps/api/src/application/alarm-engine.ts:687-702 | an incoherent transceiver for which the reason is untrue |
| Numbers.RoundingIsClose | apps/api/src/application/alarm-engine.ts:55-57 | rounding to two decimals moves a value by at most half a hundredth |
| OpticalTrend.DropOf | apps/api/src/application/alarm-engine.ts:103-114 | the scan returns the distance from the highest non-spike reading down to the latest one, or zero; the guard against having no reference is never needed |
| OpticalTrend.Scan | apps/api/src/application/alarm-engine.ts:648-659 | the loop from the end backwards keeps, in time order, the readings up to the first one older than the window |
| OpticalTrend.ObservedDrop | apps/api/src/application/alarm-engine.ts:648-659 | the backward scan feeds it exactly the non-null readings of the window (on time-sorted points), and fewer than three say nothing |
| OpticalTrend.ScanReadsTheWindow | apps/api/src/application/alarm-engine.ts:648-659 | on time-sorted points stopping at the first older reading misses nothing |
| OpticalTrend.SpikeTestIsExact | apps/api/src/application/alarm-engine.ts:88-101 | the test against the higher neighbour is the test against every neighbour |
| OpticalTrend.SpikesAreIsolated | apps/api/src/application/alarm-engine.ts:88-101 | two neighbours are never both spikes |
| OpticalTrend.SomeReadingIsNoSpike | apps/api/src/application/alarm-engine.ts:103-114 | some reading is always a non-spike |
| OpticalTrend.NoDropFromTheTop | apps/api/src/application/alarm-engine.ts:103-114 | the drop is zero when the latest reading tops every non-spike one |
| OpticalTrend.RaisingLowersTheDrop | apps/api/src/application/alarm-engine.ts:88-114 | unless it stops its neighbour from being a spike, raising the latest reading never raises the drop |
| OpticalTrend.RaisingRaisesTheDropExactly | apps/api/src/application/alarm-engine.ts:88-114 | raising the latest reading raises the drop exactly when it stops its neighbour from being a spike and the neighbour lies further above it than the drop was |
| OpticalTrend.RaisingTheLatestCanRaiseTheDrop | apps/api/src/application/alarm-engine.ts:88-114 | two readings for which it does |
| OpticalSeries.PointsAreSorted | apps/api/src/application/alarm-engine.ts:593-646 | whatever order the samples come in, the points of every series are in time order |
| OpticalSeries.SeriesKeysAreDistinct | apps/api/src/application/alarm-engine.ts:593-646 | no two series of an interface share a key exactly when no two lanes with a reading share a number |
| OpticalSeries.LaneKeyIsExact | apps/api/src/application/alarm-engine.ts:607-614 | the metric key of a lane is exact in its number |
| OpticalSeries.RulesShareThePoints | apps/api/src/application/alarm-engine.ts:593-646 | series with one key have the same points under every rule; rules differ in their fallback limits only |
| OpticalSeries.SeriesAreExact | apps/api/src/application/alarm-engine.ts:585-646 | an interface has the series of its lanes with a reading if two lanes have one, else that of the module unless that has none or is an aggregate of lanes; each has one point per sample in time order with the reading of its lane or module, the current value if the last sample is over five seconds old, and the limits of the lane, else the module, else the rule |
| AlarmEngine.Engine.ProcessDeviceMetrics | apps/api/src/application/alarm-engine.ts:798-941 | the counter pass, loop by loop, with the two maps it keeps up to date: the store and the sweep time become those of the sweep followed by the checks in loop order |
| AlarmEngine.Engine.EvaluateInterface | apps/api/src/application/alarm-engine.ts:835-838 | the loop over the rules of one interface runs their checks in order |
| AlarmEngine.Engine.EvaluateRule | apps/api/src/application/alarm-engine.ts:838-939 | the loop over the counters of one rule runs their checks in order |
| AlarmEngine.Engine.EvaluateToggle | apps/api/src/application/alarm-engine.ts:835-941 | one counter of one rule: the decision tree on open alarm, suppression, recovery and trigger is one step of the pass |
| AlarmEngine.Engine.HousekeepSuppressions | apps/api/src/application/alarm-engine.ts:790-796 | expired suppressions are cleared when a minute or more has passed since the last sweep, and then the time is kept |
| AlarmEngine.Engine.ProcessOpticalReadings | apps/api/src/application/alarm-engine.ts:950-1022 | the optical pass, loop by loop |
| AlarmEngine.Engine.EvaluateOptics | apps/api/src/application/alarm-engine.ts:993-1020 | the loop over the rules of one interface, optical side |
| AlarmEngine.Engine.EvaluateOpticalRule | apps/api/src/application/alarm-engine.ts:1008-1019 | the loop over the series of one rule |
| AlarmEngine.Engine.EvaluateOpticalSeries | apps/api/src/application/alarm-engine.ts:1024-1148 | one optical series: sustained recovery first, then suppression, then opening or escalating on the same row |
| AlarmEngine.Engine.CriteriaOf | apps/api/src/application/alarm-engine.ts:661-685 | one set of criteria per sample, with the drop observed at that sample; none where the reading is missing |
| AlarmEngineLaws.MetricPassIsSafe | apps/api/src/application/alarm-engine.ts:798-941 | for any samples and rules a counter pass keeps the invariant and rewrites no history |
| AlarmEngineLaws.MetricPassIsIdempotent | apps/api/src/application/alarm-engine.ts:798-941 | when among the rules on one counter no recovery limit reaches a threshold, a second counter pass changes no alarm, no suppression and no sweep time |
| AlarmEngineLaws.MetricPassOutcome | apps/api/src/application/alarm-engine.ts:798-941 | what a counter pass does to each counter of each rule, sweep included and other rules on the counter allowed for |
| AlarmEngineLaws.MetricRecoveredIsClosed | apps/api/src/application/alarm-engine.ts:835-941 | a counter that recovered under a rule whose limits are apart is closed and its suppression waiting for recovery lifted, whatever other rules say |
| AlarmEngineLaws.MetricSuppressedIsNotOpened | apps/api/src/application/alarm-engine.ts:798-861 | a counter alarm suppressed when a pass begins is not open when it ends, whatever the sweep and the pass released |
| AlarmEngineLaws.MetricChecksAreDistinct | apps/api/src/application/alarm-engine.ts:377-404 | distinct interface and rule ids make every evaluation of a pass work on its own fingerprint, several rules on one counter included |
| AlarmEngineLaws.MetricChecksDoNotClash | apps/api/src/application/alarm-engine.ts:297-303 | recovery limits below the thresholds of every rule on the counter exclude that one rule recovers what another opens |
| AlarmEngineLaws.OpticalPassIsSafe | apps/api/src/application/alarm-engine.ts:950-1022 | for any readings and rules an optical pass keeps the invariant; an open optical alarm's severity never falls |
| AlarmEngineLaws.OpticalPassOutcome | apps/api/src/application/alarm-engine.ts:950-1148 | what an optical pass does to each series of each rule, escalation included and other rules on the series allowed for |
| AlarmEngineLaws.OpticalSuppressedIsNotOpened | apps/api/src/application/alarm-engine.ts:1047-1075 | an optical alarm suppressed when a pass begins is not open when it ends |
| AlarmEngineLaws.OpticalPassIsIdempotent | apps/api/src/application/alarm-engine.ts:950-1022 | when, on each series whose latest sample some rule calls recovered, the recovery limit keeps a gap to the warning limits and the trend is quiet, a second optical pass changes nothing; series in alarm may drop as they like |
| AlarmEngineLaws.OpticalChecksDoNotClash | apps/api/src/application/alarm-engine.ts:1047-1088 | under that condition no rule calls an optical series recovered that another opens |
| AlarmEngineLaws.SeriesDropIsOverTheWindow | apps/api/src/application/alarm-engine.ts:648-685 | every drop a pass judges is over exactly the readings of the window that ends at its sample |
| AlarmEngineLaws.OnlyADropReopens | apps/api/src/application/alarm-engine.ts:1047-1088 | an optical series recovers and triggers at once only if its latest sample dropped by a drop limit |
| AlarmEngineLaws.QuietRecoveryIsClosed | apps/api/src/application/alarm-engine.ts:1047-1088 | a pass that finds a series recovered and quiet under coherent thresholds leaves it closed, whatever happens on other series and under other rules |
| AlarmEngineLaws.SustainedSeverityIsExplained | apps/api/src/application/alarm-engine.ts:425-475 | whatever severity a series sustains, the published reason is one its latest sample meets, except exactly when the wrong window explains it, which limits in order exclude |
| AlarmRows.PassAlarms | apps/api/src/application/alarm-engine.ts:835-941 | for every series of the device, evaluated or not: whether an unended alarm row of it is there after a pass, by the rows before and what each check found |
| AlarmRows.PassOpenRows | apps/api/src/application/alarm-engine.ts:835-941 | a row that stays keeps its columns up to a raised severity; a new one carries device, interface, type, severity, rule, metric and the time of the pass |
| AlarmRows.PassHeldRows | apps/api/src/application/alarm-engine.ts:858-866 | a suppression row is lifted exactly when it waits for recovery and its series has recovered |
| CounterAlarms.CounterPassAlarms | apps/api/src/application/alarm-engine.ts:798-941 | for every interface, rule and counter: an alarm in place ends exactly when some rule in scope on the counter that was in alarm has its own recoverySamples latest pairs of samples in a row at or below its recovery limit; a new one is in place exactly when it is not suppressed, its rule is in scope with its own triggerSamples latest pairs in a row at or above its threshold, and no later rule of the list ends it again; counters, scope and rates are spelled out on the samples |
| CounterAlarms.CounterPassRows | apps/api/src/application/alarm-engine.ts:867-918 | the row of a new counter alarm: its interface, type, rule, severity and metric, begun now; a row that stays is unchanged |
| CounterAlarms.CounterPassSuppressions | apps/api/src/application/alarm-engine.ts:850-865 | a suppression of a counter is lifted exactly when it waits for recovery and its rule has seen its number of calm pairs |
| CounterAlarms.CounterPassEndsNow | apps/api/src/application/alarm-engine.ts:923-939 | what ends during a counter pass ends at its time, and no other column of an earlier row changes |
| OpticalAlarms.OpticalPassAlarms | apps/api/src/application/alarm-engine.ts:1047-1148 | for every series: an alarm in place ends exactly when some rule in scope that was in alarm on it has seen its recoverySamples latest readings in a row recovered; a new one is in place exactly when it is not suppressed, for some severity its rule has as many latest readings in a row showing it as that severity asks for, and no later rule of the list ends it again; what a reading shows is spelled out on its distance to the limits and its drop |
| OpticalAlarms.OpticalPassRows | apps/api/src/application/alarm-engine.ts:1078-1148 | a new row is of the most severe sustained severity, not below the rule's, and begun now; a row that stays is raised to it and never lowered |
| OpticalAlarms.OpticalPassSuppressions | apps/api/src/application/alarm-engine.ts:1071-1079 | a suppression of a series is lifted exactly when it waits for recovery and its rule has seen the series recover |
| OpticalAlarms.OpticalPassEndsNow | apps/api/src/application/alarm-engine.ts:1047-1064 | what ends during an optical pass ends at its time |
| OpticalAlarms.JudgedSeriesAreExact | apps/api/src/application/alarm-engine.ts:994-1005 | the series a rule judges are those of the interface's own samples, its own limits and what it reports now |
| OpticalAlarms.LadderShows | apps/api/src/application/alarm-engine.ts:66-219 | a reading is on the ladder at or above a severity, or recovered, exactly as its distance to the ends of the span, its margin over the Low Alarm and its drop say |
| InterfaceAlarms.AlarmService.ProcessTransitions | apps/api/src/application/alarm-service.ts:30-80 | opens, then resolves, then releases, in this order, on the alarm and suppression rows |
| InterfaceAlarms.AlarmService.OpenInterfaceDownAlarms | apps/api/src/infrastructure/alarms/prisma-alarm-repository.ts:196-247 | one alarm for each listed drop unless one is open |
| InterfaceAlarms.TransitionsAreSafe | apps/api/src/application/alarm-service.ts:30-80 | a batch keeps the invariant and rewrites no history |
| InterfaceAlarms.TransitionOutcome | apps/api/src/application/alarm-service.ts:30-92 | after a batch an interface is in alarm exactly when it did not return and was in alarm before or dropped from UP to DOWN on a map link while not suppressed |
| InterfaceAlarms.TransitionRows | apps/api/src/application/alarm-service.ts:30-80 | row by row: an open link alarm of an interface that returned ends now; a new row is that of a drop on a map link; no other row changes |
| InterfaceAlarms.TransitionSuppressions | apps/api/src/application/alarm-service.ts:66-78 | a link suppression is cleared as recovered exactly when it is uncleared, waits for recovery and its interface returned |
| InterfaceAlarms.RelevantIsExact | apps/api/src/application/alarm-service.ts:38-52 | the drops that open an alarm are those from UP, on a map link, of interfaces without an active suppression |
| InterfaceAlarms.OpenAllAdds | apps/api/src/infrastructure/alarms/prisma-alarm-repository.ts:196-247 | opening keeps every row and adds only rows of given drops: CRITICAL, of the interface and its device, without rule and metric, begun now |
| AlarmSuppression.AlarmSuppressionService.SuppressAlarm | apps/api/src/application/alarm-suppression-service.ts:125-179 | suppressing, with its errors in the order the service checks them |
| AlarmSuppression.AlarmSuppressionService.ReleaseSuppression | apps/api/src/application/alarm-suppression-service.ts:181-190 | releasing, or the error for a suppression unknown or already cleared |
| AlarmSuppression.AlarmSuppressionService.AcknowledgeAlarm | apps/api/src/application/alarm-suppression-service.ts:107-123 | acknowledging, or the errors for unknown and ended alarms |
| AlarmSuppression.ExpiringIsExact | apps/api/src/infrastructure/alarms/prisma-alarm-suppression-repository.ts:132-139 | after the sweep exactly the active suppressions are uncleared, those it cleared are cleared now as expired and are as many as it reports; no alarm and no suppression's activity, now or later, changes; sweeping again finds nothing |
| AlarmSuppression.SuppressRefusesExactly | apps/api/src/application/alarm-suppression-service.ts:125-165 | a suppression is refused, and then changes nothing, exactly when the alarm is unknown, or else the window does not end in the future, or else the fingerprint is suppressed already; the error says which |
| AlarmSuppression.SuppressTakesEffect | apps/api/src/application/alarm-suppression-service.ts:142-179 | a granted suppression is one more row, of the alarm's target, with the mode asked for and an end only in that mode, and active; it ends the open alarm of its fingerprint now for the reason given and no other, and reports one closed alarm if there was one and zero otherwise |
| AlarmSuppression.ReleaseIsExact | apps/api/src/application/alarm-suppression-service.ts:181-190 | releasing clears a suppression not yet cleared, by hand and now, and nothing else; otherwise it is an error and nothing changes |
| AlarmSuppression.ReleaseFreesTheKey | apps/api/src/application/alarm-suppression-service.ts:181-190 | releasing what was just granted leaves the fingerprint neither open nor suppressed and no alarm changed |
| AlarmSuppression.RecognizeIsIdempotent | apps/api/src/application/alarm-suppression-service.ts:107-123 | acknowledgement is refused exactly for unknown and for ended alarms, each with its error, and else marks that alarm now; repeating it keeps the first one |
| AlarmSuppression.SuppressIsSafe | apps/api/src/application/alarm-suppression-service.ts:125-179 | suppressing keeps the invariant and rewrites no history |
| AlarmRuns.EveryRunIsSafe | apps/api/src/application/alarm-engine.ts:798-1148 | every run of passes, batches, suppressing, releasing, acknowledging, expiring, disabled rules and restarts under a clock that never goes back keeps the invariant; severities never fall and ended rows stay as they ended |
| AlarmRuns.EveryReachableStateIsSafe | apps/api/src/application/alarm-engine.ts:798-1148 | so in every state reachable from the empty store no fingerprint has an open alarm and an active suppression, and none has two of either |
| AlarmRuns.DisablingIsExact | apps/api/src/infrastructure/alarms/prisma-alarm-repository.ts:358-383 | disabling or deleting a rule ends its open alarms now, with the reason, and touches no other row |
| AlarmRuns.TimedSuppressionHolds | apps/api/src/application/alarm-engine.ts:851-861 | after a suppression until a time, its alarm is open at no moment before that time unless the operator released it, whatever recovers meanwhile |
| AlarmRuns.ClosedStaysClosed | apps/api/src/application/alarm-engine.ts:798-1148 | over every run, an alarm that is not open stays so as long as no evaluation of it triggers |
| AlarmRuns.QuietRecoveryStaysResolved | apps/api/src/application/alarm-engine.ts:1047-1088 | quiet samples that resolve an optical alarm do not open it again, over any run on any later samples that find the series recovered and quiet |
| AlarmNotification.AlarmNotificationService.NotifyOpened | apps/api/src/application/alarm-notification-service.ts:58-61 | announces an alarm not yet announced |
| AlarmNotification.AlarmNotificationService.constructor | apps/api/src/application/alarm-notification-service.ts:49-56 | no key is cooling at first; the cooldown is five minutes unless given |
| AlarmNotification.DispatchIsRecorded | apps/api/src/application/alarm-notification-service.ts:80-114 | a handled event leaves nothing to send under its key; its mark touches no other alarm and neither the opening nor the resolution where the event was the other one; without one no mark changes |
| AlarmNotification.NewsIsDispatched | apps/api/src/application/alarm-notification-service.ts:58-103 | a call attempts something exactly when there is news (an unannounced opening, a higher severity of an alarm that has not ended, an unannounced end) and media is off or no retry of that event is waiting; it attempts that one event |
| AlarmNotification.AlarmNotificationService.NotifyEscalated | apps/api/src/application/alarm-notification-service.ts:63-73 | announces a severity above the announced one; as an opening if nothing was announced; nothing for an ended alarm |
| AlarmNotification.AlarmNotificationService.NotifyResolved | apps/api/src/application/alarm-notification-service.ts:75-78 | announces an end not yet announced |
| AlarmNotification.AlarmNotificationService.DispatchEvent | apps/api/src/application/alarm-notification-service.ts:80-103 | media off marks at once; a cooling key is skipped; success and skip mark and clear the key; failure sets the cooldown |
| AlarmNotification.StoryIsConsistent | apps/api/src/application/alarm-notification-service.ts:58-115 | over any run of calls, with severities and ends changing arbitrarily in between and the process restarting: every attempt was allowed by all that came before it |
| AlarmNotification.AnnouncedAtMostOnce | apps/api/src/application/alarm-notification-service.ts:58-115 | at most one successful opening and one successful resolution per alarm, restarts included; a handled one is not even tried again |
| AlarmNotification.SeverityRisesStrictly | apps/api/src/application/alarm-notification-service.ts:63-73 | a handled announcement is followed by announcements of strictly higher severity only |
| AlarmNotification.AtMostThreeEscalations | apps/api/src/application/alarm-notification-service.ts:63-73 | at most three escalations of one alarm are ever handled |
| AlarmNotification.CooldownIsRespected | apps/api/src/application/alarm-notification-service.ts:91-102 | after a failed publish the same alarm, event and severity is not published again before the cooldown ends, unless the process restarts in between |
| AlarmNotification.OnlyAThrowIsForgotten | apps/api/src/application/alarm-notification-service.ts:80-103 | an attempt leaves no trace, and the next call repeats it, exactly when the transport threw |
| AlarmNotification.RestartForgetsTheCooldown | apps/api/src/application/alarm-notification-service.ts:47-98 | after a failed opening a restarted process tries again at any time, the same process exactly once the cooldown has ended |
| OccurrenceRules.BestIntervalBasis | apps/api/src/application/operational-occurrence-rules.ts:94-105 | the greatest known time strictly before the sample, if there is one |
| OccurrenceRules.RateIsExact | apps/api/src/application/operational-occurrence-rules.ts:107-126 | the rate is events over minutes to the second decimal when a base is known, the events saturating at the largest safe integer, and zero otherwise; never negative |
| OccurrenceRules.FingerprintIsExact | packages/shared/src/operational-occurrence.ts:72-77 | the key of an episode is exact for any interface id |
| Occurrences.OperationalOccurrenceService.ProcessSamples | apps/api/src/application/operational-occurrence-service.ts:95-157 | the loop over samples and types with the batch cursor, followed by housekeeping; counts what was applied |
| Occurrences.OperationalOccurrenceService.ObserveBoth | apps/api/src/application/operational-occurrence-service.ts:106-153 | the loop over the two types of one sample |
| Occurrences.OperationalOccurrenceService.ObserveOne | apps/api/src/application/operational-occurrence-service.ts:106-152 | one sample and type: latest episode, current or not, what it supersedes, interval base, plan and transaction |
| Occurrences.OperationalOccurrenceService.RunHousekeeping | apps/api/src/application/operational-occurrence-service.ts:163-171 | quiet episodes are closed at most every five minutes |
| Occurrences.OperationalOccurrenceService.AcknowledgeEpisode | apps/api/src/application/operational-occurrence-service.ts:200-213 | acknowledging an episode, with the answers for unknown and already acknowledged ones |
| OccurrenceLaws.LatestIsGreatest | apps/api/src/infrastructure/alarms/prisma-operational-occurrence-repository.ts:147-154 | the latest episode is the one with the greatest sample time, the newest on a tie |
| OccurrenceLaws.ObserveHasEffect | apps/api/src/application/operational-occurrence-rules.ts:156-200 | a sample is applied exactly when its time is new to the fingerprint and there is a current episode, none at all, or the sample is later than the newest one; then it is absorbed by the current episode (a late one changing no time, rate or peak) or begins the next, closing an open predecessor at the end of its 24 hours if the sample lies beyond it |
| OccurrenceLaws.OnlyOldSamplesAreIgnored | apps/api/src/application/operational-occurrence-rules.ts:181-182 | only samples at or before the newest episode's latest sample are ever ignored |
| OccurrenceLaws.ClosedNeverGrows | apps/api/src/application/operational-occurrence-service.ts:95-213 | over every run, restarts included: no episode disappears or begins anew; closed, acknowledged and succeeded ones keep their values, closed ones their end, acknowledged ones everything |
| OccurrenceLaws.SupersededIsNeverAcknowledged | apps/api/src/application/operational-occurrence-rules.ts:214-228 | an acknowledged episode is closed already, so no supersession is recorded as an acknowledgement |
| OccurrenceLaws.TwoEpisodesStayOpen | apps/api/src/application/operational-occurrence-service.ts:120-140 | an open episode that is no longer current stays open beside its successor exactly when the sample lies within its 24 hours |
| OccurrenceLaws.IgnoredSampleCountsOnReplay | apps/api/src/application/operational-occurrence-service.ts:90-94 | a sample ignored as too old, replayed at any later time after a newer episode began, counts exactly when that episode is current by then |
| OccurrenceLaws.ReplayIsIgnored | apps/api/src/infrastructure/alarms/prisma-operational-occurrence-repository.ts:79-95 | samples already applied change nothing when they come again |
| OccurrenceLaws.EveryRunIsOk | apps/api/src/application/operational-occurrence-service.ts:95-213 | over every run, restarts included, under a clock that never goes back: at most one current episode per fingerprint, last seen equals last sampled, each episode begins strictly after every earlier one was last seen; and count, totals and latest time of all episodes together are those of the samples applied |
| OccurrenceAccounting.TotalsAreSums | apps/api/src/application/operational-occurrence-service.ts:95-213 | over every run, restarts included: the CRC, RX and TX totals of all episodes of a fingerprint are those at the start plus the sums, over the samples applied, of the fcsErrors, inDiscards and outDiscards deltas, negative ones counted as zero |
| OccurrenceAccounting.ReportIsExact | apps/api/src/application/operational-occurrence-service.ts:95-153 | the number a batch reports is that of its samples newly recorded, counted under each type |
| OccurrenceAccounting.ConcernsExactly | apps/api/src/application/operational-occurrence-rules.ts:77-88 | a sample concerns a type exactly when one of the type's deltas is positive, and its events are their sum |
| OccurrenceAccounting.SampleRateIsExact | apps/api/src/application/operational-occurrence-rules.ts:94-125 | the rate of a sample is its events over the minutes since the latest time known before it, to two decimals, and zero when none is known |
| OccurrenceLaws.IngestIsLocal | apps/api/src/application/operational-occurrence-service.ts:100-153 | a batch acts on each fingerprint as if the others were not there |
| OccurrenceLaws.CursorIsLatest | apps/api/src/application/operational-occurrence-service.ts:100-105 | the batch cursor of an interface is the latest of its times among the samples before |
| OccurrenceLaws.BatchOrderDoesNotMatter | apps/api/src/application/operational-occurrence-service.ts:100-153 | from no episode or a current one, every order of a batch of distinct times within 24 hours of the clock gives the same count, totals, latest time and recorded sources |
| OccurrenceLaws.BeginningIs | apps/api/src/application/operational-occurrence-rules.ts:187-199 | after a batch the episode begins where the current one began, or at the first concerned sample of the batch |
| OccurrenceLaws.BeginningsAgreeExactly | apps/api/src/application/operational-occurrence-rules.ts:187-199 | two orders of a batch give the same beginning exactly when an episode was current or the same sample time comes first |
| OccurrenceLaws.BeginningDependsOnOrder | apps/api/src/application/operational-occurrence-rules.ts:187-199 | two orders of two samples that give different beginnings |
| OccurrenceLaws.QuietClosingIsExact | apps/api/src/infrastructure/alarms/prisma-operational-occurrence-repository.ts:205-229 | housekeeping closes exactly the quiet episodes it was given, at the end of their own 24 hours, which has passed |
| OccurrenceLaws.AcknowledgingIsExact | apps/api/src/infrastructure/alarms/prisma-operational-occurrence-repository.ts:187-203 | the first acknowledgement stays, closes an open episode, keeps the end of a closed one and touches no other |
| History.Aggregate | packages/shared/src/history.ts:20-87 | one row for every occupied bucket and no other: each error and discard field is the sum of that field over the bucket's points, the sample count the sum of their counts (one where absent), average times count the sum of rate times count, each maximum the greatest of zero and the points' maxima (their averages where absent); in strictly increasing time for dated points; an average over no samples is no number |
| History.SummaryIsRollup | packages/shared/src/history.ts:75-86 | every row has its averages exactly when no occupied bucket adds up to zero samples, and the rows are then the roll-up of the laws below |
| History.Gather | packages/shared/src/history.ts:43-71 | the loop fills one record for each occupied bucket with the totals of its points, in increasing time for dated points |
| History.StartUsesTheBucketSize | packages/shared/src/history.ts:11-13 | a bucket starts at the multiple of its period's size; the shortest period keeps exact times |
| History.RollupComposes | packages/shared/src/history.ts:20-87 | rolling up to a finer period first makes no difference |
| History.TwiceIsOnce | packages/shared/src/history.ts:20-87 | rolling up twice and rolling up once give the same points |
| History.RollupIsUnique | packages/shared/src/history.ts:20-87 | a roll-up with increasing times is unique |
| History.RollupIgnoresOrder | packages/shared/src/history.ts:39-41 | the result does not depend on the order of the input |
| History.RollupConserves | packages/shared/src/history.ts:43-71 | over all dated points and over all rows the same sums of sample counts, of rate times count and of each error and discard field, and the same peaks |
| History.MeasuredPointsAreSampled | packages/shared/src/history.ts:60-71 | points measured at least once each never leave a bucket whose average is undefined |
| AlertCenter.ItemOrderIsTotal | apps/api/src/infrastructure/alarms/alert-center-semantics.ts:209-224 | the comparator is a total order |
| AlertCenter.RowsAreOrdered | apps/api/src/infrastructure/alarms/alert-center-semantics.ts:209-224 | row against row: open unacknowledged alarms, acknowledged ones, open unacknowledged occurrences, then all that is settled; within each the most recent first, then by id |
| AlertCenter.PageIsExact | apps/api/src/application/alert-center-service.ts:72-138 | if the sources deliver in page order, a page is its slice of the sorted union, the total is the union's size, and there is more exactly when the union goes on; 50 rows by default, 1 to 100 otherwise, from a start that is never negative |
| AlertCenter.WalkReadsEverything | apps/api/src/application/alert-center-service.ts:72-138 | consecutive pages concatenate to the whole union, with no gap or repeat |
| AlertCenter.PrefixesSuffice | apps/api/src/application/alert-center-service.ts:104-122 | the first offset + limit rows of each source decide the first offset + limit of the sorted union |
| AlertCenter.SortIsMerge | apps/api/src/application/alert-center-service.ts:117-122 | sorting two concatenated sorted sources is merging them |
| AlertCenter.DbAlarmsInPageOrder | apps/api/src/infrastructure/alarms/prisma-alert-center-repository.ts:172-180 | the database order of alarms is the page order exactly when the acknowledged and the ended ones happen to come recently updated first |
| AlertCenter.DbOccurrencesInPageOrder | apps/api/src/infrastructure/alarms/prisma-alert-center-repository.ts:182-189 | the same for occurrences |
| AlertCenter.DbOrdersAreTotal | apps/api/src/infrastructure/alarms/prisma-alert-center-repository.ts:172-189 | the database orders of alarms and of occurrences are total |
| AlertCenter.UnsettledRowsInPageOrder | apps/api/src/infrastructure/alarms/prisma-alert-center-repository.ts:172-189 | open, unacknowledged rows always arrive in page order |
| AlertCenter.AcknowledgedAlarmIsSkipped | apps/api/src/infrastructure/alarms/prisma-alert-center-repository.ts:172-180 | two acknowledged alarms of which pages of one show the first twice and the second never |
| AlertCenterLaws.PagesAreExactExactly | apps/api/src/application/alert-center-service.ts:72-138 | for distinct ids every page at every offset and limit is its slice of the sorted union exactly when no row stands deeper in its own source than in the union |
| AlertCenterLaws.OutOfReachIsMissed | apps/api/src/application/alert-center-service.ts:104-122 | the page of one row at the rank of a row that its source delivers later does not show it |
| AlertCenterLaws.AlarmPagesAreExactExactly | apps/api/src/infrastructure/alarms/prisma-alert-center-repository.ts:172-180 | for alarms alone in database order every page is exact exactly when the acknowledged and the ended ones happen to come recently updated first |
| AlertCenterLaws.OccurrencePagesAreExactExactly | apps/api/src/infrastructure/alarms/prisma-alert-center-repository.ts:182-189 | the same for occurrences alone |
| LinkLayout.Compute | packages/shared/src/link-layout.ts:62-93 | every link gets its group's size, its rank by id in the group and the offset of that slot, for unique ids |
| LinkLayout.PlaceGroup | packages/shared/src/link-layout.ts:74-91 | the inner loop records every link of a group at its rank |
| Grouping.GroupBy | packages/shared/src/link-layout.ts:65-71 | the map-filling loop shared by several algorithms: keys by first appearance, members in input order |
| Grouping.GroupsPartition | packages/shared/src/link-layout.ts:65-71 | grouping neither loses nor repeats an item |
| LinkLayout.OrderDoesNotMatter | packages/shared/src/link-layout.ts:62-93 | the layout of a link does not depend on the order of the links |
| LinkLayout.RanksAreExact | packages/shared/src/link-layout.ts:76-78 | the ranks of a group are exactly 0 to n - 1 |
| LinkLayout.SiblingsDifferInRank | packages/shared/src/link-layout.ts:76-78 | two siblings never share a rank |
| LinkLayout.SlotsBalance | packages/shared/src/link-layout.ts:47-56 | the slots of a group of any size sum to zero |
| LinkLayout.LinkTakesItsSlot | packages/shared/src/link-layout.ts:47-90 | the slot of each rank for one to four and for any number of siblings; a manual link has none |
| LinkLayout.AutoGroupBalances | packages/shared/src/link-layout.ts:76-90 | so do the world-space offsets of an automatic group |
| LinkLayout.SlotsAreApart | packages/shared/src/link-layout.ts:47-56 | two slots of a group are at least 19 px apart |
| LinkLayout.AutoSiblingsAreApart | packages/shared/src/link-layout.ts:76-90 | so are two automatic siblings on the map, whichever way round they are stored |
| LinkLayout.ReversalOnlyNegates | packages/shared/src/link-layout.ts:80-88 | reversing a link negates its own offset and changes no other layout, exactly when its ends differ or its offset is zero |
| LinkLayout.GroupKeyIsExact | packages/shared/src/link-layout.ts:37-41 | the group key is the unordered pair of ends, for keys without the separator |
| Topology.BuildAdjacencies | apps/api/src/application/topology-preview-service.ts:248-283 | self reflections are dropped and counted, directions merged, opposite directions grouped, one proposal built for each group |
| Topology.BuildAdjacency | apps/api/src/application/topology-preview-service.ts:330-397 | a proposal from the primary observation, the reverse sightings and the links on the map |
| Topology.ScopeObservations | apps/api/src/application/topology-preview-service.ts:255-263 | self reflections are left out and counted |
| Topology.MergeDirections | apps/api/src/application/topology-preview-service.ts:265-279 | phase one and two: merge each direction, then group opposite ones |
| Topology.ExistingLinkIds | apps/api/src/application/topology-preview-service.ts:83-84 | links on the map by their unordered pair of interfaces, the last one winning |
| TopologyLaws.MergeKeepsDirection | apps/api/src/application/topology-preview-service.ts:285-298 | merging the observations of a direction keeps its device and port |
| TopologyLaws.PrimaryIsNotOverwritten | apps/api/src/application/topology-preview-service.ts:43-65 | merging never overwrites what the primary source reported |
| TopologyLaws.MissingIsFilled | apps/api/src/application/topology-preview-service.ts:43-65 | what the primary lacks is filled exactly when another source of the direction has it |
| TopologyLaws.DirectionKeyIsExact | apps/api/src/application/topology-preview-service.ts:285-287 | the direction key is the pair of device and port key, whatever the device id holds |
| TopologyLaws.ObservationKeyIsExact | apps/api/src/application/topology-preview-service.ts:323-328 | the adjacency key is the unordered pair of ends, for device names without the separator |
| TopologyLaws.EveryObservationInExactlyOneProposal | apps/api/src/application/topology-preview-service.ts:248-283 | every observation that is not a self reflection is part of exactly one proposal |
| TopologyLaws.ProposalsHoldNothingElse | apps/api/src/application/topology-preview-service.ts:265-283 | grouping neither loses nor repeats an observation |
| TopologyLaws.OneProposalPerPairOfEnds | apps/api/src/application/topology-preview-service.ts:319-328 | two merged observations share a proposal exactly when they have the same two ends in either direction: mirrors meet, proposals differ |
| TopologyLaws.ReverseIsCompatible | apps/api/src/application/topology-preview-service.ts:345-350 | between two devices a reverse sighting in the group always names the same two ports |
| TopologyLaws.ConfirmedExactly | apps/api/src/application/topology-preview-service.ts:413-430 | CONFIRMED exactly when the target is unique, a reverse sighting exists and both interfaces are resolved; ports matter only for a device linked to itself |
| TopologyLaws.UnknownExactly | apps/api/src/application/topology-preview-service.ts:413-430 | UNKNOWN_NEIGHBOR exactly when no host fits; PROBABLE exactly when one fits by a signal from a known local interface and is not confirmed; AMBIGUOUS otherwise |
| TopologyLaws.PrimaryIsBest | apps/api/src/application/topology-preview-service.ts:340-411 | a proposal shows the two ends of one of the best observations of its group: SNMP before SSH, then with host and both interfaces known |
| TopologyLaws.SingleObservationIsKept | apps/api/src/application/topology-preview-service.ts:289-298 | a direction seen once is left as it was correlated |
| TopologyLaws.SightedIsNoReflection | apps/api/src/application/topology-preview-service.ts:255-298 | a direction whose merged neighbour was sighted as such is no self reflection |
| TopologyLaws.OnlyAFilledGapReflects | apps/api/src/application/topology-preview-service.ts:255-298 | a merged self reflection comes from a direction sighted at least twice whose primary lacked something another sighting filled in |
| TopologyLaws.MergingReflectsExactly | apps/api/src/application/topology-preview-service.ts:255-298 | given what was sighted, the merge can be correlated as a self reflection exactly when the merged neighbour is none of the sighted ones |
| TopologyLaws.MergingCanReflect | apps/api/src/application/topology-preview-service.ts:255-272 | two observations, neither a self reflection, whose merge is one |
| TopologyLaws.DuplicateIsExact | apps/api/src/application/topology-preview-service.ts:352-359 | a proposal is a duplicate exactly when a link joins its two interfaces in either direction, and names the last such link |
| RenderQueue.Queue.constructor | apps/snapshot-renderer/src/render-queue.ts:13-14 | an absent limit is one, and no limit is below one |
| RenderQueue.Queue.Run | apps/snapshot-renderer/src/render-queue.ts:34-43 | submitting appends to the waiting jobs and starts the longest waiting one if there is room |
| RenderQueue.Queue.StartNext | apps/snapshot-renderer/src/render-queue.ts:19-31 | one attempt to start the job that has waited longest |
| RenderQueue.Queue.Finish | apps/snapshot-renderer/src/render-queue.ts:24-30 | a settled job, resolved or rejected, makes room and starts the next |
| RenderQueue.Queue.Pending | apps/snapshot-renderer/src/render-queue.ts:44 | who was submitted and has not started; anybody only while started less settled fills the limit |
| RenderQueue.Queue.Active | apps/snapshot-renderer/src/render-queue.ts:45 | who has started and not settled, within the limit |
| RenderQueue.StepKeepsInvariant | apps/snapshot-renderer/src/render-queue.ts:13-47 | order, conservation, the bound and no waiting below it are kept by every step |
| RenderQueue.EveryRunIsSafe | apps/snapshot-renderer/src/render-queue.ts:13-47 | over every interleaving: jobs start in submission order, submitted = waiting + active + settled, somebody waits only while the queue is full, and a whole-numbered limit is never exceeded |
| RenderQueue.EveryJobStarts | apps/snapshot-renderer/src/render-queue.ts:13-47 | a job with n others ahead of it has started once n + 1 jobs settled, whatever is submitted meanwhile |
| PngUnfilter.Unfilter | apps/api/src/scripts/qa-alarm-webhook-sink.ts:162-188 | every byte the in-place loop writes, at row*stride + x, is what RFC 2083 sections 6.2 to 6.6 reconstruct from the filtered byte, the byte at x - channels of the row, the byte at x of the row before and the one at x - channels of it, with zero outside the image and in place of missing bytes; on a filtered image it gives back the image |
| PngUnfilter.PredictionsAgree | apps/api/src/scripts/qa-alarm-webhook-sink.ts:174-184 | what the code adds to a byte is what RFC 2083 section 6 subtracts, Paeth tie order included |
| PngUnfilter.PaethIsNearest | apps/api/src/scripts/qa-alarm-webhook-sink.ts:175-184 | the Paeth predictor is the nearest of left, up and upper left to left + up - upper left, the earlier one on a tie |
| PngUnfilter.RoundTrip | apps/api/src/scripts/qa-alarm-webhook-sink.ts:162-188 | whatever is the RFC reconstruction of a filtered image is that image |
| PngUnfilter.FilterAfterUnfilter | apps/api/src/scripts/qa-alarm-webhook-sink.ts:162-188 | filtering the RFC reconstruction of a stream with the stream's own filter types gives back the stream |

## Left out

- HTTP routes, schemas, authentication, configuration, the media transport and chart rendering, SNMP and SSH adapters, and all user interface code.
- Message texts, labels, metadata, DTO mapping and date formatting; operators' names and notes on acknowledgements and suppressions.
- Floating-point rounding: dBm, percent and rates are exact reals. Strings are compared by character, not by UTF-16 unit.
- Races inside one pass, batch or service call: each is one atomic step. The media calls the engine makes are the notifier's own runs.
- AlarmEngine: rows that fall out of the sample window are not given to the pass.
- AlarmStore: opening an alarm looks up the interface and its link; those rows are taken to exist.
- AlarmNotification: the text key of the retry map is the triple of alarm, event and severity.
- Occurrences: the choice of at most 500 quiet rows, oldest first, is the argument `chosen`; the laws hold for any choice. Rows created in the same millisecond are ordered by creation.
- Occurrences.OperationalOccurrenceService: the device id and the lists for the panels.
- History.Aggregate: an average over zero samples is a missing value, not distinguished into NaN and the infinities, and the laws of repeated roll-ups speak of input without such buckets; what sorting does with undated points is left open, and no order of the result is claimed then.
- AlertCenter: filters, search, severities, the summary and the item details; a source's matching rows are given.
- LinkLayout.Compute: ids are unique, as the callers' map keys are; a negative zero offset is zero.
- Topology: correlation with the inventory, port name normalisation and the test for useful values are functions given to the model, with the contract `TopologyLaws.Sound`; the texts of reasons and warnings are left out, the number of dropped observations is kept.
- RenderQueue: a task that throws before returning its promise, and what tasks return.
- PngUnfilter: chunk walking, inflating and colour statistics.
- Mitigation, maps, inventory and the remaining services are not modelled: they would add only easy members or foreign calls.
