# CalStack in Dafny

A model of the parts of CalStack whose behaviour is decided by logic rather than by HTTP, SQL text or
libraries, with machine-checked proofs about it:

- **Recurrence** (`Civil`, `Zones`, `CustomZones`, `Recurrence`, `RecurrenceDates`, `RecurrenceRules`, `Expand`,
  `ExpandLoop`, `ExpandLimits`, `ExpandPeriods`, `Occurrences`, `CompileZone`, `ZoneTransitions`, `RuleParts`,
  `SeriesSplit`, `SplitListing`): the RRULE subset of section 3.3.10 of RFC 5545, the stepping loops that expand it,
  VTIMEZONE compilation, and "this and following" edits.
- **Event resources** (`EventRows`, `EventSpec`, `EventEffects`, `EventSplit`, `EventPut`, `EventSeen`,
  `EventCommits`, `EventRuns`, `EventGuards`, `EventTags`, `EventStore`): the events table as a transactional state
  machine with unique indexes, cached entity tags, a change journal and collection tags; what each transaction stores,
  when it commits, and what holds over every run.
- **Scheduling** (`Scheduling`, `SchedulingMessages`, `SchedulingCopies`, `SchedulingDispatch`, `SchedulingCommits`,
  `SchedulingRows`, `SchedulingSeen`, `SchedulingEdits`, `SchedulingRuns`, `SchedulingLoose`, `SchedulingTheorems`,
  `SchedulingAttached`, `SchedulingJournal`, `SchedulingGuards`, `SchedulingUids`, `Scheduler`): dispatch, cancel, reply
  and decline over origin rows, delivered copies and the outbound message log; when a dispatch commits, what it does to
  every row, what the journal misses, and the lost-update guard over runs that mix all of this.
- **Tasks, durations, vCards** (`Tasks`, `TaskGraph`, `TaskStore`, `Durations`, `VCardText`, `VCardLines`, `VCards`,
  `VCardWriter`, `VCardRoundTrip`, `VCardReread`, `VCardSeen`): the subtask graph and two printer/parser pairs.

`dafny verify dfyconfig.toml` checks everything.

## How it is built

Times are integer ticks of one nanosecond since the start of year 1, dates are day numbers, wall clocks are ticks read
in a zone. The code that changes things step by step is imperative here too: `ExpandLoop.ExpandRRule`,
`CompileZone.CompileZone`, `Occurrences.ExpandOccurrences`, `RuleParts.ParseRule` and `TruncateRRule` are methods with
loops; `EventStore.Store`, `Scheduler.Service` and `TaskStore.Store` are classes whose methods work on an open
`Transaction` and either commit it or drop it. Each method is proved equal to a specification function over values, and
the properties are proved about those functions, over every input and, where a protocol is meant, over every run. So that
a specification function is not only compared with itself, `RecurrenceRules`, `ZoneTransitions`, `EventSeen`,
`EventCommits`, `SchedulingSeen`, `VCardSeen` and the last sections of `RuleParts`, `Occurrences`, `TaskGraph` and
`Durations` say what it computes in day numbers, instants, columns, addresses and characters, without its own terms.

An entity tag is an injective constructor of calendar, sequence and timestamp. A unique index is a guard that covers
deleted rows too, as the indexes in `migrations/0001_initial.sql:222-224` and `migrations/0009_components_href.sql:14-15`
do. A failed transaction leaves no trace.

## Where the code is narrower than its documentation

Each of these is a lemma, with the exact condition where there is one:

- Truncating a series writes UNTIL in whole seconds: for a start with a fraction of a second in a tz-database zone the
  last kept occurrence is lost, and behind a kept clock in a gap all that follows it (`SeriesSplit.TruncationExact`).
- A split inside a period that holds several candidates loses the rest of that period, and a continuation can go on where
  the series was ended by the step cap or by a clock in a gap (`SeriesSplit.ContinuationExact`).
- Under an UNTIL instant every occurrence that UNTIL admits is returned exactly if none of them is or follows one in a
  gap (`ExpandLimits.UntilCompleteExactly`, with a concrete loss in `ExpandLimits.GapLosesTheThirdDay`).
- COUNT=n bounds the expansion exactly if n is at least 1 (`ExpandPeriods.CountBoundExactly`); COUNT=0, which the parser
  lets through, yields two entries of a daily series (`ExpandLimits.CountZeroEmitsTwo`).
- The comment at `crates/calendar-core/src/recurrence.rs:313-316` promises, for zones compiled from a VTIMEZONE, the
  earliest instant that reads as a clock, and the boundary of the change for a clock in a gap. Near a change from offset c
  to d at second x, a clock t resolves to an instant that reads as it exactly if neither x + c <= t < x with d < c or
  t < x + d, nor c < d and x <= t < x + d (`CustomZones.ReadsBackExactly`; for any table, in terms of the two guesses,
  `CustomZones.ReadsBackByGuesses`); so six hours of clocks before a change six hours west are misread
  (`CustomZones.SixHoursMisread`). It resolves to the earliest such instant exactly if moreover it is not a clock of the
  fold at or after x (`CustomZones.EarliestExactly`, `CustomZones.EasternFoldTakesTheLater`). A clock in a gap never
  resolves to the boundary but to an instant before it (`CustomZones.GapResolvesBeforeChange`).
- A series without COUNT and UNTIL, of any frequency, returns all its occurrences at every window exactly if no period
  lists a candidate after a later one (`ExpandLimits.CompleteExactly`). For MONTHLY with any BYDAY entries that is a
  condition on the months reached (`ExpandPeriods.MonthlyByMonths`), for YEARLY by months on the order of BYMONTH alone
  (`ExpandPeriods.YearlyCompleteExactly`).
- MONTHLY and YEARLY step to the next period at once: dates of the rule that follow the anchor in its own month or year
  are never returned, so an orderly series returns every date of its rule exactly if there are none
  (`ExpandPeriods.OwnPeriodExactly`, with a concrete loss in `ExpandPeriods.JanuaryFridaysLost`).
- MONTHLY with plain weekdays returns all its occurrences at every anchor and window exactly if its BYDAY entries name
  one weekday; with two, sorted or not, some window loses one (`ExpandLimits.MonthlyCompleteExactly`,
  `ExpandLimits.SortedWeekdaysLoseAFriday`). COUNT keeps the first entries in that order, and an UNTIL date loses what an
  earlier window loses (`ExpandLimits.CountIsPrefix`, `ExpandLimits.UntilDateIsWindow`).
- A split counts the kept occurrences in a listing, which leaves out clocks in a gap: the master keeps exactly the
  occurrences before the split exactly if all of them resolve, UNTIL is not cut short, and the listing holds the anchor or
  there is no COUNT; the continuation's COUNT is right exactly if all of them resolve and the listing holds the anchor
  (`SplitListing.SplitFromListing`). It lacks the anchor of a series that starts in a later fold of its clock
  (`SplitListing.SkippedExactly`).
- A listing cut at an instant where clocks fall back loses occurrences (`Occurrences.LosslessExactly`).
- The etag derived for an override is refused after a PUT, and after a split that moved it unless its stored etag
  happens to be that of the split's own time (`EventGuards.OverrideEtagExact`).
- A resource that was deleted cannot be PUT again at its own name without If-None-Match
  (`EventGuards.DeletedNameRefusesCapture`).
- A committed write to an override leaves a captured etag in place exactly in the very millisecond of that etag
  (`EventTags.OverrideWriteUnseenExactly`). Over any run a conditional PUT passes over a resource still served exactly if
  each step that logged it was such a write (`EventTags.MatchEtagAtAnyTime`), or, with scheduling and for an organizer's
  resource, such a write, a reply or a decline in that millisecond (`SchedulingGuards.UnseenTurnsExactly`). The master's own
  content is never overwritten unseen (`EventTags.NoLostUpdateAtAnyTime`), unless another resource takes the name over in
  that millisecond (`EventTags.FreshPutCarriesTag`).
- A dispatch commits exactly if no local attendee's collection holds the key of a delivered row in a row other than that
  row's own live copy (`SchedulingCommits.DispatchCommitsExactly`). So it fails after an attendee declines an up-to-date
  copy (`SchedulingTheorems.DispatchAfterDecline`), and after a series with delivered overrides is PUT again
  (`SchedulingTheorems.PutBlocksDispatch`).
- Dispatching an override to a collection that has no copy of it stores its copy without a master, and it stays so
  (`SchedulingAttached.DetachedCopy`); no other move detaches a copy (`SchedulingAttached.NextAttached`).
- The journal misses exactly the silent moves: a decline of a copy that is served, a dispatch or calling off that writes
  an override's row under a master row it does not write (`SchedulingJournal.NextFaithful`).
- A dispatch of a master fills, and its calling off cancels, only the copies of the master itself: the master branch of the
  filters matches no copy. The copies of an override get attendees and alarms, and are cancelled, by a move of that override
  (`SchedulingRows.SentParts`, `SchedulingRows.CopyReachedExactly`, `SchedulingRows.OverrideNeedsItsOwnMove`).
- An address that was cancelled, asked again and removed again hears nothing (`SchedulingMessages.RemovalHeardExactly`).
- Splitting a series leaves the copies of moved overrides under the old master's copy (`SchedulingEdits.SplitStructure`).
- Deleting one occurrence of a task series deletes the subtasks of the whole series
  (`TaskGraph.OverrideTakesSubtasks`); it removes nothing else exactly if there are none and no task overrides it
  (`TaskGraph.OnlyItselfExactly`). The parent check skips the empty string (`TaskGraph.UpdateKeepsAcyclic`).
- An accepted update of a task's override whose master is deleted is stored and answered with NotFound
  (`TaskStore.Store.Update`).
- A vCard line that was folded before a blank loses that blank when it is unfolded, because all blanks at the start of a
  continuation are dropped and not one (`VCardSeen.FoldSurvivesExactly`); section 5.8.1 of RFC 2425 drops one.
- The kind of a telephone comes back exactly if it is `cell` for a mobile one, and otherwise in lower case and not `pref`
  (`VCardReread.TelRecovered`).

## Model

| member | source | states |
|---|---|---|
| Civil.YmdRoundTrip | crates/calendar-core/src/recurrence.rs:383-392 | day numbers and year/month/day convert into each other without loss for every valid date |
| Civil.StartClosedForm | crates/calendar-core/src/recurrence.rs:383-392 | the start of each month equals the Gregorian closed form with the 4/100/400-year rule |
| Zones.TzResolvesEarliest | crates/calendar-core/src/recurrence.rs:317-337 | a tz-database wall clock resolves to the earliest instant that reads as it |
| Zones.TzNoneInGap | crates/calendar-core/src/recurrence.rs:317-337 | it resolves to nothing only if no instant reads as it |
| Zones.CustomInversion | crates/calendar-core/src/recurrence.rs:296-348 | where a custom zone's offset is steady around a wall clock, the clock resolves to the one instant that reads as it |
| CustomZones.ReadsBackByGuesses | crates/calendar-core/src/recurrence.rs:325-337 | over every table a clock resolves to an instant that reads as it if and only if it is a whole second and the two guessed offsets agree, or the second is larger and holds at the result |
| CustomZones.ReadingResolvesByGuesses | crates/calendar-core/src/recurrence.rs:325-347 | over every table the reading of an instant resolves back to it, to the second, if and only if the larger guess is the offset at that instant |
| CustomZones.InstantsOf | crates/calendar-core/src/recurrence.rs:296-348 | near one change of offset, exactly which instants read as a clock: the one before, the one after, both in a fold, none in a gap |
| CustomZones.ReadsBackExactly | crates/calendar-core/src/recurrence.rs:313-337 | near one change a clock resolves to an instant that reads as it if and only if it is a whole second outside the two spans of misread clocks |
| CustomZones.EarliestExactly | crates/calendar-core/src/recurrence.rs:313-337 | it resolves to the earliest such instant if and only if moreover it is not a clock of the fold at or after the change |
| CustomZones.ReadingResolvesExactly | crates/calendar-core/src/recurrence.rs:325-347 | the reading of an instant near one change resolves back to it if and only if it lies outside two named spans |
| CustomZones.GapResolvesBeforeChange | crates/calendar-core/src/recurrence.rs:313-337 | a clock in a gap resolves to an instant before the change, which reads earlier by the length of the gap, and nothing reads as it |
| CustomZones.SixHoursMisread | crates/calendar-core/src/recurrence.rs:325-337 | a zone six hours west falling back misreads all clocks of six hours although each of them is read by an instant |
| CustomZones.EasternFoldTakesTheLater | crates/calendar-core/src/recurrence.rs:313-337 | a zone two hours east falling back resolves a clock of the fold to the later of its two instants |
| Zones.ResolveKeepsDayOrder | crates/calendar-core/src/recurrence.rs:317-337 | clocks a day apart resolve in order when offsets spread less than a day |
| Recurrence.CollectMonthDates | crates/calendar-core/src/recurrence.rs:525-561 | the candidate loops of a month compute the month's candidate list |
| RecurrenceDates.NthWeekdayClosedForm | crates/calendar-core/src/recurrence.rs:394-416 | the n-th weekday of a month is the day whose week from the start, or for negative ordinals from the end, is the n-th, and nothing for other ordinals |
| RecurrenceDates.MonthDatesExact | crates/calendar-core/src/recurrence.rs:525-561 | a month's candidates are exactly its days that pass the BYMONTHDAY, BYDAY or anchor-day test |
| RecurrenceDates.PeriodDatesExact | crates/calendar-core/src/recurrence.rs:574-727 | period k holds exactly the matching dates whose INTERVAL distance from the anchor is k, for all four frequencies |
| RecurrenceDates.PeriodDatesAscend | crates/calendar-core/src/recurrence.rs:525-561 | with ascending months and one day list, each period's candidates ascend |
| RecurrenceRules.RuleDaysExactly | crates/calendar-core/src/recurrence.rs:617-727 | in plain day numbers, without the candidate lists, which days a rule has after its start: every n-th day or week, month or year on the grid of INTERVAL, with the listed months, days of the month from its start or end, and weekdays or n-th weekdays |
| RecurrenceRules.ExpansionIsRule | crates/calendar-core/src/recurrence.rs:563-729 | an orderly rule without COUNT and UNTIL returns exactly its start and, up to window and step cap, the clocks at the start's time on those days |
| RecurrenceRules.UntilKeeps | crates/calendar-core/src/recurrence.rs:574-613 | with UNTIL it returns exactly those of them that UNTIL reaches, as a date or as an instant, and none after a clock that resolves to nothing |
| Expand.StreamExact | crates/calendar-core/src/recurrence.rs:574-727 | the candidates of all periods up to the cap are exactly the matching dates within it |
| Expand.StreamAscends | crates/calendar-core/src/recurrence.rs:574-727 | and they come in ascending order |
| Expand.ExpansionExact | crates/calendar-core/src/recurrence.rs:563-729 | the expansion is the anchor and then, ascending and without gaps, exactly the occurrences, cut only by window, cap, first UNTIL violation and COUNT |
| Expand.WindowIndependence | crates/calendar-core/src/recurrence.rs:563-729 | an expansion to an earlier end is a prefix of one to a later end and misses nothing up to its end |
| ExpandLoop.Accept | crates/calendar-core/src/recurrence.rs:574-592 | one candidate is emitted, skipped to the end or ends the series as the specification says |
| ExpandLoop.ExpandDays | crates/calendar-core/src/recurrence.rs:617-666 | the day loop emits what the specification still has to emit |
| ExpandLoop.ExpandMonths | crates/calendar-core/src/recurrence.rs:667-697 | the month loop does |
| ExpandLoop.ExpandYears | crates/calendar-core/src/recurrence.rs:698-727 | the year loop does |
| ExpandLoop.ExpandRRule | crates/calendar-core/src/recurrence.rs:563-729 | the whole loop computes the expansion with the 200,000-step cap |
| ExpandLimits.GapEndsSeries | crates/calendar-core/src/recurrence.rs:574-592 | under an UNTIL instant nothing at or after an occurrence in a gap is returned |
| ExpandLimits.UntilCompleteExactly | crates/calendar-core/src/recurrence.rs:574-592 | unless COUNT ends the series first, every occurrence within window and cap that UNTIL admits is returned if and only if none of them is or follows one in a gap |
| ExpandLimits.GapLosesTheThirdDay | crates/calendar-core/src/recurrence.rs:574-592 | a concrete zone, daily rule and window where the third day is admitted and not returned |
| ExpandLimits.CountZeroEmitsTwo | crates/calendar-core/src/recurrence.rs:591-613 | COUNT=0 yields the anchor and one more entry |
| ExpandLimits.CompleteExactlyWithoutLateArrival | crates/calendar-core/src/recurrence.rs:684-692 | the loop is complete at every window if and only if no candidate arrives after a later one |
| ExpandLimits.AscendingHasNoLateArrival | crates/calendar-core/src/recurrence.rs:684-692 | ascending candidates meet that condition |
| ExpandLimits.CompleteExactly | crates/calendar-core/src/recurrence.rs:617-727 | at every anchor and in every zone a series without COUNT and UNTIL, of any frequency, returns every occurrence at every window if and only if no period within the cap lists a candidate after a later one |
| ExpandPeriods.MonthlyByMonths | crates/calendar-core/src/recurrence.rs:667-697 | MONTHLY with any BYDAY entries, ordinals included, is complete at every anchor, zone and window if and only if the entries list no month reached with a late arrival |
| ExpandPeriods.YearlyCompleteExactly | crates/calendar-core/src/recurrence.rs:698-727 | YEARLY by months, with nothing else or one plain weekday, is complete everywhere if and only if BYMONTH, repeats aside, ascends |
| ExpandPeriods.OwnPeriodExactly | crates/calendar-core/src/recurrence.rs:667-727 | an orderly series without COUNT and UNTIL returns every date of its rule from the anchor on at every window if and only if none lies after the anchor in the anchor's own month or year |
| ExpandPeriods.JanuaryFridaysLost | crates/calendar-core/src/recurrence.rs:675-680 | MONTHLY;BYDAY=FR from Monday 1 January of year 1 never returns Friday 5 January |
| ExpandPeriods.CountBoundExactly | crates/calendar-core/src/recurrence.rs:574-613 | COUNT=n bounds the expansion at every anchor, zone, window and cap if and only if n is at least 1 |
| ExpandLimits.FridaysThenMondaysArriveLate | crates/calendar-core/src/recurrence.rs:534-555 | BYDAY=FR,MO has such a late arrival in every month |
| ExpandLimits.MonthlyCompleteExactly | crates/calendar-core/src/recurrence.rs:667-697 | for MONTHLY with plain weekdays the expansion returns every occurrence at every anchor, zone and window if and only if all BYDAY entries name one weekday |
| ExpandLimits.SortedWeekdaysLoseAFriday | crates/calendar-core/src/recurrence.rs:667-697 | BYDAY=MO,FR from 1 January of year 1 loses Friday 2 February at the window that ends there |
| ExpandLimits.CountIsPrefix | crates/calendar-core/src/recurrence.rs:574-592 | COUNT=n returns the first n entries of the list without COUNT, bounded by UNTIL or not, in the order the candidates come |
| ExpandLimits.UntilDateIsWindow | crates/calendar-core/src/recurrence.rs:574-592 | an UNTIL date returns what the unbounded rule returns up to that date as the window |
| Occurrences.ExpandOccurrences | crates/calendar-core/src/recurrence.rs:435-521 | the result ascends strictly and holds exactly the instants in the window of candidates that EXDATE does not exclude |
| Occurrences.RuleAlone | crates/calendar-core/src/recurrence.rs:455-459 | without RDATE and EXDATE the occurrences are the instants of the start's clock, or of the clocks the rule gives up to the reading of the window's end |
| Occurrences.RdateAdds | crates/calendar-core/src/recurrence.rs:461-468 | an RDATE adds exactly the instant its clock resolves to, if no EXDATE names it |
| Occurrences.ExdayHidesDay | crates/calendar-core/src/recurrence.rs:470-489 | in a tz-database zone an all-day EXDATE hides exactly the occurrences read on that local day |
| Occurrences.ExdateHidesClock | crates/calendar-core/src/recurrence.rs:470-489 | and a timed one exactly those read as its own clock |
| Occurrences.LosslessExactly | crates/calendar-core/src/recurrence.rs:435-521 | cutting a listing at b loses nothing before b, for any event, if and only if no clock that resolves before b is read between b and the end |
| Occurrences.AdjoiningWindows | crates/calendar-core/src/recurrence.rs:435-521 | under that condition listing [a,c) is listing [a,b) and then [b,c) |
| Occurrences.FixedOffsetIsLossless | crates/calendar-core/src/recurrence.rs:435-521 | a zone with one offset meets the condition everywhere |
| Occurrences.FallBackIsLossy | crates/calendar-core/src/recurrence.rs:435-521 | a zone that falls back does not, at a concrete instant |
| CompileZone.CompileZone | crates/calendar-core/src/recurrence.rs:200-266 | the table is sorted and gives at every instant of the window the offset of the latest generated transition, or the first one's prior offset |
| ZoneTransitions.GeneratedExactly | crates/calendar-core/src/recurrence.rs:209-246 | a transition lies at second t exactly if, for some rule, t plus its prior offset reads its DTSTART, an RDATE or an expanded clock, and t is not past the window |
| ZoneTransitions.OffsetExactly | crates/calendar-core/src/recurrence.rs:200-266 | the offset at a second is that of the last rule to have fired, the first listed on a tie, and before all of them the prior offset of the first to fire |
| ZoneTransitions.NeverFires | crates/calendar-core/src/recurrence.rs:247-251 | there is no transition exactly if no rule fires within the window |
| ZoneTransitions.FailsExactly | crates/calendar-core/src/recurrence.rs:209-246 | compilation fails exactly if some rule's RRULE does not parse |
| ZoneTransitions.SummerAndWinter | crates/calendar-core/src/recurrence.rs:200-266 | a zone with a summer and a winter rule: the offset at every second around both changes |
| CompileZone.GenerateRaw | crates/calendar-core/src/recurrence.rs:209-246 | keeping a rule's transitions in the window and its latest one before it changes no offset from the window start on; fails exactly when a rule does not parse |
| CompileZone.FindCut | crates/calendar-core/src/recurrence.rs:257-262 | finds the first transition in the window and the offset carried into it |
| CompileZone.TableIsExact | crates/calendar-core/src/recurrence.rs:200-266 | cutting and prefixing the sorted transitions keeps that lookup although each rule kept one transition before the window |
| CompileZone.GoverningSorted | crates/calendar-core/src/recurrence.rs:252-253 | sorting and removing duplicates changes no governing transition; the earlier rule wins ties |
| RuleParts.ParseRule | crates/calendar-core/src/recurrence.rs:75-168 | parsing the parts gives the specified rule or error, and an accepted rule satisfies what the expansion needs |
| RuleParts.ParsedExactly | crates/calendar-core/src/recurrence.rs:75-168 | accepted exactly if FREQ is given, no part is unknown, INTERVAL is not 0, weekdays and months exist; of each kind the last part counts and weekdays add up |
| RuleParts.TruncateRRule | crates/calendar-core/src/recurrence.rs:737-767 | the rewritten parts are the others followed by COUNT, or UNTIL, for the kept occurrences; None exactly when none is kept |
| RuleParts.UntilWritten | crates/calendar-core/src/recurrence.rs:752-764 | the UNTIL written is the last kept day, the day of UTC of a last instant, or its last whole second |
| RuleParts.TruncatePartsMeaning | crates/calendar-core/src/recurrence.rs:737-767 | rewriting and parsing again is truncating the parsed rule |
| RuleParts.ReanchorNone | crates/calendar-server/src/events_api.rs:1230-1247 | the re-anchored rule is absent if and only if some COUNT is used up |
| RuleParts.ReanchorPartsMeaning | crates/calendar-server/src/events_api.rs:1230-1247 | rewriting COUNT and parsing again lowers the parsed rule's COUNT |
| SeriesSplit.ExpansionUnique | crates/calendar-core/src/recurrence.rs:563-729 | the exactness property determines the expansion |
| SeriesSplit.ContinuationExact | crates/calendar-core/src/recurrence.rs:563-729 | the rule re-anchored at the k-th occurrence expands to exactly the rest if and only if the next one is not in the same period and the continuation does not resume where the series was cut other than by COUNT |
| SeriesSplit.NeverResumes | crates/calendar-core/src/recurrence.rs:563-729 | it never resumes within the step cap when the series goes on in a later period, when periods hold one candidate, or when a passed UNTIL stays passed |
| SeriesSplit.ContinuationOfSparseRule | crates/calendar-core/src/recurrence.rs:563-729 | for DAILY, WEEKLY and one candidate per period the continuation is exact within the step cap |
| SeriesSplit.TruncationExact | crates/calendar-core/src/recurrence.rs:737-767 | the truncated rule expands to exactly the first k if and only if COUNT, or all-day, or all kept clocks after the anchor resolve and a custom zone or a whole-second start; with a fraction to k-1 |
| SeriesSplit.SplitConserves | crates/calendar-server/src/events_api.rs:1330-1445 | within the step cap the two halves of a split concatenate to the series under the same condition |
| SplitListing.BeforeIsResolved | crates/calendar-server/src/events_api.rs:1308-1345 | the listing before the split holds exactly the instants of the kept clocks that resolve, but for an anchor that resolves before the series starts, and as many as these if and only if all resolve |
| SplitListing.SkippedExactly | crates/calendar-server/src/events_api.rs:1308-1316 | in a tz-database zone the listing leaves out the anchor if and only if an earlier instant reads as the series start does |
| SplitListing.SplitFromListing | crates/calendar-server/src/events_api.rs:1334-1398 | the rule truncated from that listing expands to exactly the kept occurrences if and only if all of them resolve, UNTIL is exact, and there is no COUNT or the anchor is listed; with nothing listed the master stops recurring, rightly if and only if only the anchor was kept; COUNT is lowered by their number if and only if there is none or all are listed |
| EventEffects.CreateKeeps | crates/calendar-db/src/lib.rs:963-1053 | a create keeps the invariant and writes, journals and refreshes one resource only |
| EventEffects.CreateKeepsExactly | crates/calendar-db/src/lib.rs:963-1053 | a create keeps the invariant if and only if the master it is given is a master of the same calendar |
| EventEffects.UpdateKeeps | crates/calendar-db/src/lib.rs:1420-1535 | an update does |
| EventEffects.DeleteKeeps | crates/calendar-db/src/lib.rs:1538-1563 | a delete does |
| EventSplit.SplitKeeps | crates/calendar-db/src/lib.rs:1089-1206 | a split keeps the invariant and writes the master and the continuation only |
| EventSplit.SplitPartition | crates/calendar-db/src/lib.rs:1089-1206 | every row after a split: overrides before the wall stay, the one at it dies, later ones move with the new UID or die; all else is untouched |
| EventPut.OverridesInserted | crates/calendar-db/src/ics_upsert.rs:265-297 | the insert loop adds one row per override and keeps the unique indexes |
| EventPut.MasterWritten | crates/calendar-db/src/ics_upsert.rs:217-264 | the master ends up at the PUT name with the PUT's content, its sequence raised, in the canonical, taken-id, replaced and revived cases |
| EventPut.PutStores | crates/calendar-db/src/ics_upsert.rs:125-298 | the whole database after a committed put: the resource holds exactly what was put, everything else is as before |
| EventPut.StoredEffect | crates/calendar-db/src/ics_upsert.rs:125-298 | a put writes and journals one resource only |
| EventPut.PutOrigins | crates/calendar-db/src/ics_upsert.rs:265-268 | a put clears exactly the origin links to the overrides it removes |
| EventSeen.CreateSeen | crates/calendar-db/src/lib.rs:963-1053 | after a create, column by column: the new row holds what was given, with sequence 0 and its etag, an override's master is refreshed, all else is untouched, one journal entry |
| EventSeen.UpdateSeen | crates/calendar-db/src/lib.rs:1420-1535 | after an update a get returns every part of the patch in its column, a date winning over an instant, absent parts as they were, one sequence step and the new etag |
| EventSeen.UpdatedTable | crates/calendar-db/src/lib.rs:1420-1535 | an update is accepted exactly for a live row under its stored etag or none, and writes that row and an override's master only |
| EventSeen.DeleteSeen | crates/calendar-db/src/lib.rs:1538-1563 | a delete likewise, and it hides the row and keeps its columns |
| EventSeen.SplitSeen | crates/calendar-db/src/lib.rs:1089-1206 | for every live override by bare comparison with the wall: before it unchanged, on it dead, behind it under the continuation with its UID or dead; the master holds the split's rule, RDATEs and EXDATEs |
| EventSeen.PutSeen | crates/calendar-db/src/ics_upsert.rs:265-297 | after a put each override's row holds its own UID, RECURRENCE-ID, content without RRULE, organizer, attendees and alarms under the master, and there are no others |
| EventSeen.PutGoesTo | crates/calendar-db/src/ics_upsert.rs:169-264 | which row a put goes to, whether the client is told of a new resource, and the sequence past both counters |
| EventCommits.CreateAccepted | crates/calendar-db/src/lib.rs:963-1053 | a create commits exactly if its id is free and no row of the calendar, deleted ones included, has its UID with its RECURRENCE-ID or its name, the calendar and an override's master exist, and an override has no rule; with the error otherwise |
| EventCommits.SplitCommitsExactly | crates/calendar-db/src/lib.rs:1089-1206 | a split commits exactly for a live recurring master, and with a continuation if its place is free and no row has the new UID with the RECURRENCE-ID of an override that moves; with the error otherwise |
| EventCommits.PutCommitsExactly | crates/calendar-db/src/ics_upsert.rs:125-298 | a put commits exactly if its zones are known, its precondition holds, no other live row has its UID where none is served at its name, the master's place and name are free of other rows, and so are those of every override, none twice |
| EventRuns.StepEffect | crates/calendar-db/src/lib.rs:839-892 | every transaction either leaves no trace or has an effect the journal covers exactly |
| EventRuns.RunKeepsWf | crates/calendar-db/src/lib.rs:839-866 | over every run the stored etag of every master is the derived one and the unique indexes hold |
| EventRuns.JournalComplete | crates/calendar-db/src/lib.rs:839-892 | over every run, a resource whose content or existence differs was logged in between in its own calendar, whose ctag strictly grew |
| EventGuards.MatchEtagExact | crates/calendar-caldav/src/adapter.rs:454-481 | a conditional PUT passes after any run later than the captured etag if and only if nothing was written to the resource since its etag was captured |
| EventGuards.NoLostUpdate | crates/calendar-db/src/ics_upsert.rs:169-201 | if it commits after such a run, no write came in between and it replaces that very resource |
| EventTags.OverrideWriteUnseenExactly | crates/calendar-db/src/lib.rs:839-866 | after a committed creation, update or deletion of an override, which is logged, the etag captured before it still passes if and only if the write was in the very millisecond of that etag |
| EventTags.MatchEtagAtAnyTime | crates/calendar-caldav/src/adapter.rs:454-481 | over every run, whatever the clock did: over a resource still served a conditional PUT passes if and only if each step that logged it was an override write in the captured millisecond; otherwise if and only if another resource took the name over with the same tag, which needs a step in that millisecond |
| EventTags.NoLostUpdateAtAnyTime | crates/calendar-db/src/ics_upsert.rs:169-201 | over every run, if it commits over that resource, the master's own row is as it was captured and only override writes in the captured millisecond were lost |
| EventTags.FreshPutCarriesTag | crates/calendar-db/src/ics_upsert.rs:169-264 | a first PUT at a freed name in the millisecond of an etag of sequence 0 carries that very etag |
| EventGuards.CapturedPutPasses | crates/calendar-caldav/src/adapter.rs:454-481 | what open captures passes, with no write in between, if and only if the name is free or serves a live resource |
| EventGuards.DeletedNameRefusesCapture | crates/calendar-caldav/src/adapter.rs:235-259 | over a deleted row it is always refused |
| EventGuards.DerivedEtagAccepted | crates/calendar-db/src/lib.rs:1594-1603 | the etag get derives is accepted by update and delete if and only if it is the stored one, which for masters it always is |
| EventGuards.UpdatesMerge | crates/calendar-db/src/lib.rs:1438-1525 | two updates in a row leave what one update with the merged patch leaves, one sequence step later; a repeated update changes nothing else |
| EventGuards.UpdateThenGet | crates/calendar-db/src/lib.rs:1420-1535 | an update's etag is the next derived one, is accepted in turn, and the replaced one is refused; the sequence rises by one and everything a patch has no part for stays |
| EventGuards.PutOverridesRefuseDerivedEtag | crates/calendar-db/src/ics_upsert.rs:301-373 | the derived etag of an override stored by a put is refused |
| EventGuards.OverrideEtagExact | crates/calendar-db/src/lib.rs:1131-1172 | after any transaction the derived etag of a live override is refused exactly in the named cases: put always, created or updated never, moved by a split unless the stored etag is that of the split's time, otherwise as before |
| EventGuards.OneResourcePerName | crates/calendar-db/src/ics_upsert.rs:187-201 | two rows with one name in one calendar are one row |
| EventGuards.PutServesExactly | crates/calendar-db/src/ics_upsert.rs:125-298 | after a put only the returned row is served at the name, with exactly the put overrides |
| EventGuards.CreateUid | crates/calendar-server/src/events_api.rs:391-428 | a created override keeps one UID per series if and only if the caller passes the master's |
| EventGuards.StepKeepsOneUid | crates/calendar-db/src/lib.rs:1131-1203 | every transaction keeps live overrides on their master's UID under that condition |
| EventGuards.RunKeepsOneUid | crates/calendar-db/src/lib.rs:1131-1203 | over every run of such transactions all live overrides carry their master's UID |
| EventStore.Transaction.AppendChange | crates/calendar-db/src/lib.rs:839-866 | an override's change refreshes and reports its master |
| EventStore.Transaction.InsertOverrides | crates/calendar-db/src/ics_upsert.rs:269-281 | the loop inserts all overrides or stops at the first error |
| EventStore.Store.CreateEvent | crates/calendar-db/src/lib.rs:1055-1075 | the method is the specified transaction, an error changes nothing; it returns the inserted row, as it was before its etag was written, and that etag |
| EventStore.Store.UpdateEvent | crates/calendar-db/src/lib.rs:1420-1535 | likewise, with the etag guard; it returns the updated row, as it was before its etag was written, and that etag |
| EventStore.Store.DeleteEvent | crates/calendar-db/src/lib.rs:1538-1563 | likewise |
| EventStore.Store.GetEvent | crates/calendar-db/src/lib.rs:1594-1603 | found exactly for a live row, which is returned as it is with its derived etag, for masters the stored one; NotFound otherwise |
| EventStore.Store.GetEventByHref | crates/calendar-db/src/lib.rs:1575-1592 | finds the live master at a name with its stored etag, or NotFound exactly if there is none |
| EventStore.Store.SplitEvent | crates/calendar-db/src/lib.rs:1089-1206 | the method is the specified transaction |
| EventStore.Store.FindTarget | crates/calendar-db/src/ics_upsert.rs:169-216 | precondition, name and UID lookups choose the specified row or conflict |
| EventStore.Store.PutSeries | crates/calendar-db/src/ics_upsert.rs:125-298 | the method is the specified transaction and keeps the invariant |
| SchedulingMessages.OutboxAdds | crates/calendar-db/src/scheduling.rs:261-346 | a dispatch only adds messages at the subject's sequence and keeps REQUEST sequences per subject and address strictly increasing |
| SchedulingMessages.ExternalsAsked | crates/calendar-db/src/scheduling.rs:451-469 | after a dispatch every external attendee has a REQUEST at least at the subject's sequence |
| SchedulingMessages.EveryoneAskedIsAnswerable | crates/calendar-db/src/scheduling.rs:309-331 | every address ever asked is invited, a local user's or has a CANCEL; the invited and local users get none |
| SchedulingMessages.RepeatedDispatchIsSilent | crates/calendar-db/src/scheduling.rs:261-346 | a second dispatch with nothing changed records no message |
| SchedulingMessages.RemovalHeardExactly | crates/calendar-db/src/scheduling.rs:488-505 | a removed outside address ends on a CANCEL if and only if the log already did or never held one |
| SchedulingCopies.UpsertKeeps | crates/calendar-db/src/scheduling.rs:577-634 | an upsert keeps the invariants, writes one row, and leaves a live copy with every copied field of a live origin |
| SchedulingCopies.OnlyMasterCopiesFilled | crates/calendar-db/src/scheduling.rs:677-757 | in a dispatch of m, attendees and alarms are replaced on exactly the copies of m in that calendar, m being a master or an override |
| SchedulingCopies.RebuildKeeps | crates/calendar-db/src/scheduling.rs:539-573 | a rebuild leaves a full mirror of the subject and a copy of every live override, and touches no other calendar's copies |
| SchedulingDispatch.DispatchKeeps | crates/calendar-db/src/scheduling.rs:261-346 | a dispatch of m keeps etags and copy structure, writes no organizer's row, and leaves the attendees and alarms of copies of other rows than m |
| SchedulingDispatch.DispatchMirrors | crates/calendar-db/src/scheduling.rs:539-757 | each local attendee finds a live copy with the organizer's attendees and alarms that mirrors every copied field if and only if all owners of the collection are invited, and is cancelled otherwise |
| SchedulingRows.SentExactly | crates/calendar-db/src/scheduling.rs:261-346 | every old row after a dispatch is the named one: copies of m and its live overrides in served collections rewritten, copies of deleted overrides dropped, strays cancelled, all else untouched; and exactly the rewritten rows are journalled |
| SchedulingRows.SentNew | crates/calendar-db/src/scheduling.rs:577-634 | every new row is a copy of a delivered row where that row had no live copy, journalled, and without a master if and only if it copies m itself |
| SchedulingRows.SentParts | crates/calendar-db/src/scheduling.rs:677-757 | a dispatch of a master or an override gives attendees and alarms to its own copies in the served collections and to no other copy |
| SchedulingSeen.RecipientExactly | crates/calendar-db/src/scheduling.rs:276-307 | who is reached: the linked user, or without a link the one the address belongs to, in that user's default collection; everyone else but the organizer is mailed |
| SchedulingSeen.DispatchRowSeen | crates/calendar-db/src/scheduling.rs:539-830 | every old row after the organizer's dispatch, by columns: which copies follow their origin, which are called off because an owner is not invited, which disappear, and that all else stays |
| SchedulingSeen.MasterCopySeen | crates/calendar-db/src/scheduling.rs:539-676 | every attendee reached has one live copy with the organizer's columns, attendees and alarms, or one that is called off if an owner of the collection is not invited |
| SchedulingSeen.OverrideCopySeen | crates/calendar-db/src/scheduling.rs:553-573 | and one live copy of every live override with its columns |
| SchedulingSeen.NewRowSeen | crates/calendar-db/src/scheduling.rs:933-977 | every row a dispatch adds is a copy of a delivered row that had none in a collection served |
| SchedulingSeen.DispatchRefused | crates/calendar-db/src/scheduling.rs:205-275 | a dispatch needs a live row that is no copy, and does nothing for anyone but its organizer by link or address |
| SchedulingSeen.DispatchMessagesSeen | crates/calendar-db/src/scheduling.rs:276-331 | the only messages added are REQUESTs to attendees who are mailed and CANCELs to addresses asked before, off the list, no local user's and never cancelled; everyone due one has it |
| SchedulingSeen.CallOffSeen | crates/calendar-db/src/scheduling.rs:353-401 | calling off cancels exactly the live rows of the series in the collections reached and sends exactly those mailed a CANCEL; by anyone but the organizer nothing |
| SchedulingSeen.DeclineAccepted | crates/calendar-db/src/scheduling.rs:1106-1125 | an owner of its collection may decline a live copy, nobody else; on any other row a decline is ignored |
| SchedulingCommits.DispatchCommitsExactly | crates/calendar-db/src/scheduling.rs:261-346 | a dispatch of a series with one UID commits if and only if in every local attendee's collection each delivered row's key is free or held by that row's own live copy |
| SchedulingDispatch.CalledOffExactly | crates/calendar-db/src/scheduling.rs:353-401 | calling off cancels exactly the live rows the filter reaches in local attendees' collections |
| SchedulingRows.CopyReachedExactly | crates/calendar-db/src/scheduling.rs:859-887 | of the copies, calling off a master or an override reaches exactly its own live copies in local attendees' collections |
| SchedulingRows.OverrideNeedsItsOwnMove | crates/calendar-db/src/scheduling.rs:677-757 | the master's dispatch and calling off leave an override's copy; the override's own fill and cancel it |
| SchedulingDispatch.CancelDispatchKeeps | crates/calendar-db/src/scheduling.rs:353-401 | it keeps the invariants and queues a CANCEL for every external attendee |
| SchedulingDispatch.ReplyAccepted | crates/calendar-db/src/scheduling.rs:996-1022 | a reply is accepted exactly with a known PARTSTAT on a live origin row |
| SchedulingDispatch.ReplyExactly | crates/calendar-db/src/scheduling.rs:1017-1058 | it sets the PARTSTAT, refreshes and logs the master, and changes nothing else |
| SchedulingEdits.SplitStructure | crates/calendar-db/src/lib.rs:1131-1172 | a split keeps the copies' structure if and only if no override it moves is delivered |
| SchedulingEdits.PutStructure | crates/calendar-db/src/ics_upsert.rs:203-281 | a put keeps it if and only if it revives no twin of a live copy |
| SchedulingRuns.NextKeeps | crates/calendar-db/src/scheduling.rs:205-223 | every scheduling move and guarded edit keeps all invariants |
| SchedulingTheorems.RunKeepsInv | crates/calendar-db/src/scheduling.rs:205-223 | over every run none of whose edits takes a delivered override away from its copies: one live copy per origin and calendar, origins are no copies, a copy stored under a master hangs under the copy of its origin's master, REQUEST sequences increase and never pass the subject's |
| SchedulingLoose.NextLoose | crates/calendar-db/src/scheduling.rs:205-223 | every possible move, whatever the copies look like, keeps etags, indexes, the link of a master's copy to a row, and the order and bounds of the message log |
| SchedulingTheorems.RunKeepsLoose | crates/calendar-db/src/scheduling.rs:205-223 | so does every run of edits and scheduling moves |
| SchedulingUids.RunKeepsSeries | crates/calendar-db/src/scheduling.rs:933-977 | over every run of edits and scheduling moves that passes UIDs to created overrides an organizer's series keeps one UID |
| SchedulingUids.DispatchCommitsAfterRun | crates/calendar-db/src/scheduling.rs:261-346 | after every run that keeps copies a dispatch of the series commits if and only if its keys are free or held by its own live copies |
| SchedulingAttached.DetachedCopy | crates/calendar-db/src/scheduling.rs:539-634 | an override delivered on its own gets a copy without a master |
| SchedulingAttached.NextAttached | crates/calendar-db/src/scheduling.rs:539-573 | a move keeps the copy of every override under the copy of its master if and only if it is not a committed dispatch of an override to a collection that has no live copy of it |
| SchedulingAttached.RunKeepsAttached | crates/calendar-db/src/scheduling.rs:539-573 | over every run that keeps copies and has no such dispatch each override's copy hangs under its master's copy |
| SchedulingJournal.NextFaithful | crates/calendar-db/src/lib.rs:839-892 | a move that finds the copies' structure intact, or writes no copies, logs every resource it changes if and only if it is not silent, silence being a condition on the rows before it |
| SchedulingJournal.UnheardOverrideSends | crates/calendar-db/src/scheduling.rs:577-634 | a dispatch of an override is missed at exactly the live copies of it that hang under a live master copy and end up different |
| SchedulingJournal.UnheardMasterSends | crates/calendar-db/src/scheduling.rs:636-676 | a dispatch of a master is missed at exactly the copies of deleted overrides it drops outside the served collections, under a live master copy it does not write |
| SchedulingJournal.NextGrows | crates/calendar-db/src/lib.rs:839-892 | every move only adds to the journal, each entry with a step of its calendar's ctag |
| SchedulingJournal.OnlySilentMissed | crates/calendar-db/src/lib.rs:839-892 | over a run that keeps copies exactly the silent moves are missed |
| SchedulingJournal.RunJournalComplete | crates/calendar-db/src/lib.rs:839-892 | over every run of edits and scheduling moves none of which is missed, a resource that differs was logged in between in its own calendar, whose ctag strictly grew |
| SchedulingGuards.MatchEtagOverRuns | crates/calendar-caldav/src/adapter.rs:454-481 | over runs of edits and scheduling moves later than the captured etag a conditional PUT passes if and only if the resource was not logged since and is still served |
| SchedulingGuards.MatchEtagAnyClock | crates/calendar-caldav/src/adapter.rs:454-481 | over every such run, whatever the clock did: over a resource still served it passes if and only if every turn that logged it was in the captured millisecond and the sequence is as it was; otherwise if and only if another resource took the name over with the same tag |
| SchedulingGuards.UnseenTurnsExactly | crates/calendar-db/src/lib.rs:839-866 | over an organizer's resource still served it passes if and only if every turn that logged it was an edit of an override, a reply or a decline in the captured millisecond |
| SchedulingGuards.NoLostUpdateOverRuns | crates/calendar-db/src/ics_upsert.rs:169-201 | after a run of later moves none of which is missed, if it commits, the resource is unchanged and is the one replaced |
| SchedulingGuards.NoLostUpdateAnyClock | crates/calendar-db/src/ics_upsert.rs:169-201 | after any run, if it commits over the resource, only what was logged in the captured millisecond was lost, and of an organizer's resource only edits of overrides, replies and declines |
| SchedulingTheorems.ExternalsUpToDate | crates/calendar-db/src/scheduling.rs:451-469 | after any run and a dispatch every external attendee has been sent exactly the current sequence |
| SchedulingTheorems.ReplySurvives | crates/calendar-db/src/scheduling.rs:674-720 | a PARTSTAT set by reply survives any number of dispatches, on the origin and on the copies |
| SchedulingCommits.BlockedDispatch | crates/calendar-db/src/scheduling.rs:933-977 | whatever the UIDs, a deleted copy or an organizer's own row that holds a needed key makes every dispatch fail |
| SchedulingTheorems.EmailForExact | crates/calendar-db/src/scheduling.rs:1063-1083 | the address found for a user is of an attendee row linked to or addressed as the user, and none is found only if there is none |
| SchedulingTheorems.DeclineExactly | crates/calendar-db/src/scheduling.rs:1106-1143 | a decline deletes the copy and sets DECLINED on a live origin, nothing more |
| SchedulingTheorems.DeclineBlocksDispatch | crates/calendar-db/src/scheduling.rs:1106-1143 | after declining an up-to-date copy the organizer's dispatches fail while the attendee stays listed |
| SchedulingTheorems.DispatchAfterDecline | crates/calendar-db/src/scheduling.rs:1106-1143 | where a dispatch would have committed, one after a decline commits if and only if the declined copy is not an up-to-date copy of a delivered row in a local attendee's collection |
| SchedulingTheorems.DeclineIsNotJournalled | crates/calendar-db/src/scheduling.rs:1132-1141 | the declined copy of a master disappears without a journal entry |
| SchedulingTheorems.PutBlocksDispatch | crates/calendar-db/src/ics_upsert.rs:265-281 | a PUT that stores a delivered override again makes later dispatches fail |
| Scheduler.UpsertCopyRow | crates/calendar-db/src/scheduling.rs:577-634 | the method does what upsert is specified to do |
| Scheduler.Rebuild | crates/calendar-db/src/scheduling.rs:539-573 | the method does what rebuild is specified to do |
| Scheduler.NeedsRequest | crates/calendar-db/src/scheduling.rs:451-469 | the maximum of the logged sequences decides whether a REQUEST is due |
| Scheduler.PastRecipients | crates/calendar-db/src/scheduling.rs:471-486 | collects every asked address once |
| Scheduler.Withdraw | crates/calendar-db/src/scheduling.rs:309-331 | the loop queues exactly the specified CANCELs |
| Scheduler.DeliverAndAsk | crates/calendar-db/src/scheduling.rs:276-307 | the attendee loop delivers, asks and gathers as specified, or stops at the first error |
| Scheduler.Service.DispatchSubject | crates/calendar-db/src/scheduling.rs:261-346 | the method is the specified transaction and keeps the invariants |
| Scheduler.Service.CancelSubject | crates/calendar-db/src/scheduling.rs:353-401 | likewise |
| Scheduler.Service.ReplyTo | crates/calendar-db/src/scheduling.rs:996-1058 | likewise |
| Scheduler.Service.DeclineCopy | crates/calendar-db/src/scheduling.rs:1106-1143 | likewise, ignoring a failed reply |
| TaskGraph.DoomedIsLeast | crates/calendar-db/src/tasks.rs:714-727 | the removed set is the least closed set that holds the target, on cyclic links too |
| TaskGraph.DoomedIsLive | crates/calendar-db/src/tasks.rs:714-727 | only live tasks of the target's calendar are removed |
| TaskGraph.NothingDangles | crates/calendar-db/src/tasks.rs:693-747 | after a deletion no live task is an override or a subtask of a removed one |
| TaskGraph.OverrideTakesSubtasks | crates/calendar-db/src/tasks.rs:714-727 | deleting an override removes every subtask of the series while the master stays |
| TaskGraph.OnlyItselfExactly | crates/calendar-db/src/tasks.rs:714-727 | deleting a task removes nothing else if and only if no other live task overrides it or is a subtask by its UID |
| TaskGraph.WalkFindsCycles | crates/calendar-db/src/tasks.rs:664-691 | the walk reports a cycle if and only if the task is among the ancestors it visits |
| TaskGraph.WalkPassesOnlyTrees | crates/calendar-db/src/tasks.rs:664-691 | it passes only if the task is no ancestor at all, and gives up only on more than 64 ancestors |
| TaskGraph.TimingStaysExclusive | crates/calendar-db/src/tasks.rs:560-580 | the written dates keep the column checks whatever the patch holds |
| TaskGraph.ReparentAcyclic | crates/calendar-db/src/tasks.rs:581-589 | a new parent keeps the relation acyclic if and only if it does not lead back |
| TaskGraph.UpdateKeepsAcyclic | crates/calendar-db/src/tasks.rs:581-589 | an accepted update keeps an acyclic relation acyclic if and only if it does not slip an empty parent past the check |
| TaskGraph.RefusalExact | crates/calendar-db/src/tasks.rs:664-691 | a parent is refused if and only if the task is among its first 64 ancestors or there are more |
| TaskGraph.ParentExactly | crates/calendar-db/src/tasks.rs:676-687 | the parent of a UID is what its live master in the calendar says |
| TaskGraph.UpdateSeen | crates/calendar-db/src/tasks.rs:556-651 | after an update, column by column: every part of the patch, a date or DURATION clearing its partners, an override's master one sequence step on, one journal entry, nothing else |
| TaskGraph.UpdateAccepted | crates/calendar-db/src/tasks.rs:545-593 | an update is accepted exactly for a live task under its stored etag or none, without DURATION beside DUE, and with a parent the walk passes or need not see |
| TaskGraph.DeleteSeen | crates/calendar-db/src/tasks.rs:696-747 | a deletion hides the least set that holds the task and takes along overrides and subtasks, keeps every column, logs each hidden task and nothing more |
| TaskStore.RejectParentCycle | crates/calendar-db/src/tasks.rs:664-691 | the loop gives the walk's verdict |
| TaskStore.CollectTree | crates/calendar-db/src/tasks.rs:714-727 | the worklist computes the removed set and terminates |
| TaskStore.Store.Update | crates/calendar-db/src/tasks.rs:539-661 | the method is the specified transaction and returns the written row with the new etag of its resource, or NotFound when an override's master is deleted |
| TaskStore.Store.Delete | crates/calendar-db/src/tasks.rs:696-747 | removes the set, logs each task once, raises the ctag once, returns the number removed |
| Durations.ParseIcsDuration | crates/calendar-caldav/src/lib.rs:1108-1148 | the character loop reads the specified number of seconds or nothing |
| Durations.FormatInterval | crates/calendar-caldav/src/todo.rs:619-642 | the buffer holds the specified text |
| Durations.DurationRoundTrip | crates/calendar-caldav/src/todo.rs:619-642 | parsing a formatted interval gives back its seconds for every 64-bit interval |
| Durations.ParsedExactly | crates/calendar-caldav/src/lib.rs:1108-1148 | the parser exactly, over every string: which texts are accepted and that the value is the signed sum of numbers times units, weeks included |
| Durations.WeeksRead | crates/calendar-caldav/src/lib.rs:1120-1123 | n weeks are 604,800 n seconds |
| VCardText.EscapeByChar | crates/calendar-carddav/src/vcard.rs:58-64 | the four replacements in a row escape each character on its own |
| VCardText.UnescapeText | crates/calendar-carddav/src/vcard.rs:41-56 | the loop computes the specified text |
| VCardText.UnescapeInvertsEscape | crates/calendar-carddav/src/vcard.rs:41-64 | unescaping an escaped text gives the text back, for every string |
| VCardText.SplitComponents | crates/calendar-carddav/src/vcard.rs:67-86 | the loop computes the specified components |
| VCardText.ComponentsInvertJoin | crates/calendar-carddav/src/vcard.rs:67-86 | splitting a join of escaped parts gives the parts back, for all strings |
| VCardLines.UnfoldText | crates/calendar-carddav/src/vcard.rs:26-39 | the loop computes the specified text |
| VCardLines.WrittenLinesSurvive | crates/calendar-carddav/src/vcard.rs:26-39 | written lines are split, unfolded and split again into themselves, up to a carriage return at their ends |
| VCards.Parse | crates/calendar-carddav/src/vcard.rs:144-260 | the nested loops compute the specified cards, or report that there is none |
| VCardWriter.Write | crates/calendar-carddav/src/vcard.rs:292-353 | the buffer holds the specified lines |
| VCardRoundTrip.FieldSurvivesExactly | crates/calendar-carddav/src/vcard.rs:189-204 | a text field comes back unchanged if and only if neither end is a blank other than a newline |
| VCardReread.RoundTrip | crates/calendar-carddav/src/vcard.rs:144-353 | parsing a written card gives exactly one card, known in every field for every card |
| VCardReread.ContactRecovered | crates/calendar-carddav/src/vcard.rs:144-353 | uid, kind, names, organization, title, addresses, numbers and members come back in order |
| VCardReread.EmailRecovered | crates/calendar-carddav/src/vcard.rs:213-221 | exactly when an address keeps its kind and its primary flag |
| VCardReread.TelRecovered | crates/calendar-carddav/src/vcard.rs:222-237 | exactly when a number keeps its mobile flag, its primary flag and its kind |
| VCardSeen.FoldSurvivesExactly | crates/calendar-carddav/src/vcard.rs:24-39 | folding a line and unfolding it gives it back if and only if it was not folded before a blank |
| VCardSeen.GroupDropped | crates/calendar-carddav/src/vcard.rs:94-112 | a group before the property name is dropped and the name read in any case |
| VCardSeen.TypesRead | crates/calendar-carddav/src/vcard.rs:99-120 | the types are the values between commas of the TYPE parameter in any case |
| VCardSeen.AddressRead | crates/calendar-carddav/src/vcard.rs:205-212 | of an address the third to seventh component are read, empty ones as none, whatever they hold |
| VCardSeen.NameRead | crates/calendar-carddav/src/vcard.rs:198-202 | of a name the first two components are read |
| VCardSeen.KindRead | crates/calendar-carddav/src/vcard.rs:190-196 | under either name a kind is group exactly if it says so in any case |
| VCardSeen.EmailRead | crates/calendar-carddav/src/vcard.rs:213-221 | kind and primary flag of an address for any list of types |
| VCardSeen.TelRead | crates/calendar-carddav/src/vcard.rs:222-237 | kind, mobile and primary flag of a number for any list of types |
| VCardSeen.FinishSeen | crates/calendar-carddav/src/vcard.rs:242-253 | a card without a name is called by its given and family name, one without a UID gets the minted one |
| VCardSeen.CardRead | crates/calendar-carddav/src/vcard.rs:149-254 | of any text one card is read: lines before BEGIN are passed over, those up to END are read in order, and reading goes on behind it |
| VCardSeen.ManyCards | crates/calendar-carddav/src/vcard.rs:144-353 | any number of written cards in one text are parsed into those cards in order, each as from its own text |

## Left out

- Years before 1, chrono's range limits, and intervals of 2^31 and more, whose cast to a signed year wraps.
- The IANA tz database: `Zone::Tz` is an offset table whose resolution is the earliest solution.
- The text of RRULE parts, UNTIL and DATE values: rules are lists of parsed parts, so tokenising and number syntax are not
  modelled.
- All-day events in `expand_occurrences`; sorting and removing duplicates there and in `compile_zone` is modelled as
  ordered insertion.
- SeriesSplit.SplitConserves: asks for a window that ends before the step cap does, as
  SeriesSplit.ContinuationOfSparseRule does, because the cap restarts at the new anchor; SeriesSplit.ContinuationExact names
  the outcome without that.
- SeriesSplit.TruncationExact: asks for offsets that spread less than a day, because UNTIL is compared as an instant, and
  for a last kept clock that resolves, because UNTIL is written from it; SplitListing.SplitFromListing says what the
  handler writes when it does not.
- EventEffects.CreateKeeps: an override is created under a master of its own calendar, the check the API makes when it is
  given the instant of the occurrence; with a bare RECURRENCE-ID it makes none, and EventEffects.CreateKeepsExactly says
  that the invariant is then lost.
- EventGuards.MatchEtagExact: asks that every later transaction has a later timestamp than the captured one, as
  EventGuards.NoLostUpdate does; EventTags.MatchEtagAtAnyTime and EventTags.NoLostUpdateAtAnyTime do not.
- SchedulingGuards.MatchEtagOverRuns: asks the same, as SchedulingGuards.NoLostUpdateOverRuns does;
  SchedulingGuards.MatchEtagAnyClock and SchedulingGuards.NoLostUpdateAnyClock do not.
- Zones.CustomInversion: asks for a steady offset; CustomZones.ReadsBackByGuesses and CustomZones.ReadsBackExactly do not.
- SchedulingCommits.DispatchCommitsExactly: asks that every user's default collection exists, which the lookup of it
  provides, and that the series has one UID, which EventGuards.RunKeepsOneUid and SchedulingUids.RunKeepsSeries keep for
  overrides created with their master's UID; with two UIDs a stale copy of one row can stand in the way of another,
  depending on the order of delivery.
- SchedulingRuns.NextKeeps: a split or put meets the exact condition of SchedulingEdits.SplitStructure or
  SchedulingEdits.PutStructure; the runs of SchedulingLoose.NextLoose, SchedulingTheorems.ExternalsUpToDate,
  SchedulingJournal.RunJournalComplete and SchedulingGuards hold any split and put.
- SchedulingJournal.NextFaithful: the exact condition is stated for copies whose structure is intact; a dispatch, a calling
  off or a decline on copies that an edit has broken counts as missed when it fails to log what it changes.
- Scheduling of tasks, which shares the code path; inbound messages, notifications and the mail job; e-mail addresses are
  compared as given, for the case-insensitive column type and the lower-casing in `dispatch`; a PARTSTAT arrives in
  upper case.
- The row ids the database mints are any ids that no row has and no stored name spells.
- Hrefs shared across component kinds, the VTIMEZONE store of a PUT, locations, and the redirection of a PUT on a copy
  into a reply.
- Tasks: creation, which makes no cycle check, completion, attendees and alarms.
- Durations.ParseIcsDuration: does not model 64-bit overflow of the sum, only of a single number.
- vCards: case mapping is ASCII; parameters in quotes are not unquoted, as in the code.
- VCardReread.RoundTrip: asks that the kinds of addresses and numbers are trimmed and hold no colon, semicolon, comma or
  newline, because the writer puts them into the line unescaped.
- HTTP handlers, authentication, alarms, sharing, search, webhooks, backups and jobs.
