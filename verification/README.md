# Verified models of CALM's trading core, date library and TWS wire layer

This project states and proves, in Dafny, what the hard parts of the repository promise. It can be checked with
`dafny verify dfyconfig.toml`. It has four parts, each a few modules, one file per module.

**Time zones and calendars** (`external/date`). `RuleSplit` is the class `RuleTable`, whose methods cut and re-sort a
vector of year-range rules in place, as `Rule::split` and `Rule::split_overlaps` do; its result is a normal form in
which two ranges of a name are equal or disjoint, with the same rules in force in every year. `RuleWalk` walks the
normal form in time order, `ZoneAdjust` finds the rules that a zone's lines begin and end with, `ZoneLookup` turns the
walk into the intervals that a UTC query returns, with the abbreviations of `Abbreviations`, and `Transitions`
is the other representation of a zone, a table of transitions, with its conversions to and from local time. `Calendar`,
`IsoWeek`, `MonthDayTimes` and `LeapSeconds` are the integer conversions below them; `Search` is `std::upper_bound`.

**Orders and positions** (`lib`). `Gateway` keeps the order map and emits snapshots, `Queues` and `Engine` carry them
in first-in-first-out order, `PortfolioBook` keeps positions and costs incrementally, and `AlgoEngine` runs one order at
a time with cancel and retry. `Pipeline` puts gateway, event engine and consumers together as a step system in which
each lock-delimited operation is a step and steps interleave in any order: any number of sends, answers and errors may
be under way at once. `Agreement` and `Draining` say when the positions agree with the gateway's map. `Orders` holds the shared types.
Prices and quantities are reals.

**The historical downloader** (`lib/data`). `HistChunks` cuts a range into requests, `HistDownload` is the protocol of
requests and replies over whole runs, `HistBarGetter` is the object with its callbacks, and `HistBars` is the merging of
the bars.

**The wire** (`external/tws`). `Framing` is the byte stream of length-prefixed messages, `Wire` the sender and the reader
with their buffers, with socket calls that take or deliver as few bytes as they like, and `Connection` both at work at
the same time, over all runs. `Fields`, `OrderConditions` and
`MessageCoding` are the NUL-terminated fields and the order conditions printed and parsed with them. `Base64` is the
decoder.

The classes follow the source statement by statement. Their methods are proved against functions of the old state, and
the main results are lemmas about those functions: over every input, every reachable state or every run. `Basics` holds
optional values, bytes and the limits of an int.

## Findings

Where the code does not meet a property on all inputs, the property is proved with its exact condition.

- ISO week dates: `date::year` is a `short`, so the conversions wrap in year -32768. A day survives the round trip
  exactly when it is `Representable`, a week date exactly when it is not one of the eight `Wrapped` ones.
- UTC queries: the year of the query is a `short` too. The query throws for exactly the years out of range if and only
  if the year is stored as it is or wraps to -32768; the first instant of 32769 is answered as one of -32767.
- `MonthDayTime::canonicalize` keeps the day exactly when the pattern falls in the year it is resolved for. A pattern
  that reaches over New Year moves to another year's date, as the first Saturday from 30 December does in 2021.
- Leap seconds: `to_sys(from_sys(t)) == t` for all t exactly when leap second c + 1 is at least c seconds after leap
  second c, and `is_leap_second` marks exactly the skipped seconds exactly when it is more than c seconds after. Dates
  such as 0, 10, 20, 21 and 0, 10, 11 fail.
- The portfolio's callback keeps position and cost right exactly when the order it replaces has the same symbol and
  side, or has traded nothing and either has the same symbol or cost no commission. This concerns the callback alone:
  the gateway's snapshots never change an order's symbol or side, so it does not fail in the pipeline.
- `AlgoEngine` subtracts what the order in flight has traded, and is freed by a closing snapshot, whichever order a
  snapshot is for. For any broker, a run keeps the engine's invariant exactly when each late snapshot of a finished
  order is `Harmless`. In a run of twelve steps, error 202 with a partial fill followed by the status Cancelled leaves
  two orders live and counts the fill twice.
- The gateway emits a snapshot after it has released the order lock, so a snapshot may overtake an older one of the same
  order: an error raised on a sender's thread for want of a connection, and a fill reported on the thread of the broker's
  answers. A run stays in turn exactly when no emission `Spoils` it, and then the drained positions are those of the
  map. From any state of any run, every way of draining ends with the map's positions exactly when the snapshots of one
  order under way contribute alike and emission in turn would match. `OvertakenRun` ends with a fill of ten in the map
  and none in the portfolio.
- The lines of a zone: a line's first and last rule are the ends of a stretch of its rules exactly when its end comes no
  earlier among them than its beginning, or it begins after all of them, in which case it starts over.
- A table of transitions: the interval reported before its first transition reaches beyond it, so the answers to UTC
  queries tile the timeline exactly when the table starts no later than the timeline.
- A message longer than `MAX_MSG_LEN` is sent all the same, with a zero length, and the reader stops there: everything
  sent is read exactly when no payload is longer.
- Order conditions: with an empty list the two flags are not sent, and the reader keeps its own.

## Model

| member | source | states |
|---|---|---|
| Calendar.DaysRoundTrip | external/date/include/date/date.h:3087-3103 | `from_days` yields a real date of the Gregorian calendar, for every day number, and `to_days` takes it back |
| Calendar.CivilRoundTrip | external/date/include/date/date.h:2973-2987 | `from_days` inverts `to_days` on every valid date |
| Calendar.ToDaysCountsDays | external/date/include/date/date.h:2973-2987 | `to_days` of the calendar's next date is one more: with Epoch, it counts days from 1970-01-01 |
| Calendar.Epoch | external/date/include/date/date.h:2973-2987 | day 0 is 1970-01-01, in both directions |
| Calendar.FromDaysExact | external/date/include/date/date.h:3087-3103 | storing the year in a `short` loses nothing if and only if the year fits |
| Calendar.YearBounds | external/date/include/date/date.h:3087-3103 | the year found is the one whose 1 January comes last at or before the day |
| Calendar.WeekdayCycle | external/date/include/date/date.h:1820-1826 | for every int, the unsigned weekday computation is the seven-day cycle with Thursday at day 0 |
| IsoWeek.DayRoundTrip | external/date/include/date/iso_week.h:1509-1527 | day to week date to day is the identity if and only if the day is representable |
| IsoWeek.WeekRoundTrip | external/date/include/date/iso_week.h:1486-1508 | every `ok()` week date survives the trip to a day and back, except exactly the wrapped ones |
| IsoWeek.OkExact | external/date/include/date/iso_week.h:1505-1508 | apart from the wrapped ones, `ok()` holds for exactly the week dates that days are converted to |
| IsoWeek.LongYears | external/date/include/date/iso_week.h:604-613 | the weeks that `is_leap` gives a year are those between its first Monday and the next, for every year but -32768, exactly |
| IsoWeek.WrappedYear | external/date/include/date/iso_week.h:604-613 | for year -32768 `is_leap` reports 53 weeks where the week start it computes has 52 |
| IsoWeek.FollowsTheStandard | external/date/include/date/iso_week.h:1509-1527 | the year is that of the week's Thursday and the number counts the Thursdays of that year (ISO 8601:2004, section 4.1.4) |
| MonthDayTimes.OtherYearOtherDay | external/date/src/tz.cpp:994-1019 | a date moved to another year never has the same day number, even 29 February |
| MonthDayTimes.CanonicalizeKeepsDay | external/date/src/tz.cpp:1028-1065 | freezing a weekday pattern in a year keeps its day if and only if the day lies in that year |
| MonthDayTimes.FrozenOverNewYear | external/date/src/tz.cpp:1054-1063 | a pattern of December that falls on 1 January is frozen a year too early |
| MonthDayTimes.LastWeekday | external/date/src/tz.cpp:1003-1004 | the last weekday of a month has that weekday and lies in the month, and no later day of the month has it |
| MonthDayTimes.WeekAfterLastWeekday | external/date/src/tz.cpp:1003-1004 | a week later it is another month |
| MonthDayTimes.OnOrBeforeMeans | external/date/src/tz.cpp:1005-1011 | the weekday on or before a date is that weekday, at most six days before |
| MonthDayTimes.OnOrAfterMeans | external/date/src/tz.cpp:1012-1018 | the weekday on or after a date is that weekday, at most six days after |
| MonthDayTimes.DatesMean | external/date/src/tz.cpp:1001-1002 | a plain date is that date |
| MonthDayTimes.SortedBy | external/date/src/tz.cpp:885-915 | the month and day that a pattern is sorted by: the 31st for the last weekday of a month |
| MonthDayTimes.ToSysReadsItsClock | external/date/src/tz.cpp:959-975 | at the instant found, the pattern's clock (UTC, standard or local) shows its day and time of day |
| MonthDayTimes.LastSundayOfOctober | external/date/src/tz.cpp:1037-1043 | in 2021 it is the 31st, where a pattern for it is frozen |
| RuleSplit.StringLessMeans | external/date/src/tz.cpp:1285-1298 | names are ordered as in a dictionary, and any two different ones are ordered |
| RuleSplit.LessMeans | external/date/src/tz.cpp:1285-1298 | `operator<` orders by name, start year, month, end year and day |
| RuleSplit.SortedIsKeySorted | external/date/src/tz.cpp:1285-1298 | on rules of one name, `operator<` orders by start year, month, end year and day |
| RuleSplit.CutPieces | external/date/src/tz.cpp:1407-1474 | the rules that the five branches leave are, as a multiset, the two rules cut at each other's edges |
| RuleSplit.SplitWindow | external/date/src/tz.cpp:1407-1474 | a split changes nothing outside the window and replaces exactly two rules by their cuts |
| RuleSplit.CutTotals | external/date/src/tz.cpp:1407-1474 | cutting a rule leaves its effect in every year and shortens the total slack, the termination measure |
| RuleSplit.TotalsPermute | external/date/src/tz.cpp:1486-1489 | re-sorting changes neither the effects in force in any year nor the slack |
| RuleSplit.StepSettled | external/date/src/tz.cpp:1476-1498 | a split and sort at rule i leaves all earlier rules settled, although later rules still overlap |
| RuleSplit.StepScanned | external/date/src/tz.cpp:1480-1491 | after a split and sort, rule i has nothing left to cut before position k + 1, so k need not be reset |
| RuleSplit.StepMeaning | external/date/src/tz.cpp:1484-1489 | each split and sort keeps the effects of every year and uses up slack |
| RuleSplit.SettledIsNormal | external/date/src/tz.cpp:1476-1491 | a table whose rules are all settled is in normal form |
| RuleSplit.RuleTable.Split | external/date/src/tz.cpp:1407-1474 | the in-place inserts and assignments of all five branches give the specified table and the grown bound |
| RuleSplit.RuleTable.SplitAndSort | external/date/src/tz.cpp:1484-1489 | the body of the inner loop is one such step on the window and touches nothing else |
| RuleSplit.RuleTable.ScanRule | external/date/src/tz.cpp:1480-1491 | the inner loop with its growing bound halts, settles rule i and keeps order and meaning |
| RuleSplit.RuleTable.SplitAll | external/date/src/tz.cpp:1476-1491 | any sorted group of rules with start <= end ends in normal form, sorted, with the same effects in every year |
| RuleSplit.RuleTable.SplitOverlaps | external/date/src/tz.cpp:1476-1498 | the whole of `split_overlaps(rules, i, e)`: normal form, then single-year rules get their resolved date |
| RuleSplit.FrozenMeaning | external/date/src/tz.cpp:1493-1497 | the last loop keeps the day, time and effect of every rule in every year if and only if each pattern it resolves falls in its year |
| RuleWalk.NormalFormIsBlock | external/date/src/tz.cpp:1500-1543 | the normal form of a name's rules is what the walk needs |
| RuleWalk.FindNextRule | external/date/src/tz.cpp:1581-1608 | returns the next (rule, year) in chronological order, with nothing in between, or null after the last |
| RuleWalk.FindNextInTable | external/date/src/tz.cpp:1612-1637 | the same for the variant that finds the edges of the name itself |
| RuleWalk.FindPreviousRule | external/date/src/tz.cpp:1545-1579 | returns the (rule, year) just before, for every one but the first |
| RuleWalk.NextAndPreviousAreInverse | external/date/src/tz.cpp:1545-1637 | the neighbour before and the neighbour after are unique, so the two walks undo each other |
| RuleWalk.FirstIsInitial | external/date/src/tz.cpp:1545-1555 | only the first rule in its first year has no predecessor |
| RuleWalk.WalkVisitsAll | external/date/src/tz.cpp:1581-1637 | a walk from the first to null visits every year of every rule exactly once, in order |
| RuleWalk.FullWalkExists | external/date/src/tz.cpp:1581-1637 | from the first rule's first year the walk does reach null |
| RuleWalk.SpanExists | external/date/src/tz.cpp:1581-1637 | any two occurrences in order are the ends of a chain of walk steps |
| ZoneAdjust.CompareIsOfInstants | external/date/src/tz.cpp:917-957 | the comparison of two dates of different clocks is that of their instants, for clocks less than a day apart |
| ZoneAdjust.CompareMeans | external/date/src/tz.cpp:917-957 | whatever the clocks, dates at most a day apart or of one clock are compared by instant, and others by date |
| ZoneAdjust.FindRuleBefore | external/date/src/tz.cpp:1655-1681 | returns the last occurrence that all comparisons put before a line's end |
| ZoneAdjust.FindRuleBegun | external/date/src/tz.cpp:1683-1720 | returns the last occurrence begun by the end of the line before |
| ZoneAdjust.FindFirstStd | external/date/src/tz.cpp:1639-1653 | returns the first occurrence without saving, or throws when there is none |
| ZoneAdjust.AdjustRules | external/date/src/tz.cpp:2492-2532 | a line's first and last rule, initial saving, initial name and end are those that the two scans determine |
| ZoneAdjust.AdjustedSpan | external/date/src/tz.cpp:2503-2532 | they are the ends of the occurrences between the scans, with the saving in force before the first |
| ZoneAdjust.InitialNameAndSaving | external/date/src/tz.cpp:2503-2532 | before a line's first occurrence the saving and name are those of the occurrence before it; a line that starts the table has no saving and the name of the first occurrence without |
| ZoneAdjust.BegunIsOfInstants | external/date/src/tz.cpp:1683-1720 | an occurrence has begun when its instant, with the last saving of the line before, has come |
| ZoneAdjust.BeforeUntilIsOfInstants | external/date/src/tz.cpp:1655-1681 | an occurrence comes before a line's end when its instant, with the saving before it, does |
| ZoneAdjust.AdjustedExact | external/date/src/tz.cpp:2503-2532 | they are the ends of a chain of occurrences if and only if the line's beginning and end are in order, or it begins after all of them |
| ZoneAdjust.OutOfOrder | external/date/src/tz.cpp:1655-1720 | only an occurrence begun before the line and yet not before its end can put them out of order |
| ZoneAdjust.EstablishesSpan | external/date/src/tz.cpp:2503-2532 | such a line is what the lookup takes for granted, if its instants increase |
| ZoneAdjust.AdjustLine | external/date/src/tz.cpp:2451-2531 | a line with no rule, with a saving or with rules gets its end and its rules |
| ZoneAdjust.AdjustInfos | external/date/src/tz.cpp:2440-2548 | the loop makes each line with the end of the one before it, and throws only for rules without standard time |
| ZoneAdjust.AdjustedZoneIsOk | external/date/src/tz.cpp:2440-2548 | the zone it leaves is what the lookup requires, if its lines are sound and end one after the other |
| Abbreviations.FindsFirst | external/date/src/tz.cpp:2550-2575 | the place of a pattern is the first |
| Abbreviations.OffsetTextTells | external/date/src/tz.cpp:2573-2603 | the text of an offset determines it, to the second |
| Abbreviations.SlashFormat | external/date/src/tz.cpp:2563-2569 | of two names with a slash between, the first is used without saving and the second with |
| Abbreviations.LettersFormat | external/date/src/tz.cpp:2556-2560 | the letters of the rule take the place of the first `%s` |
| Abbreviations.OffsetFormat | external/date/src/tz.cpp:2570-2604 | a text that stands for the offset takes the place of the first `%z` |
| Abbreviations.PlainFormat | external/date/src/tz.cpp:2550-2607 | a format without fields is the abbreviation |
| Abbreviations.KnownAbbreviations | external/date/src/tz.cpp:2550-2607 | GMT and BST, EST and EDT, +0330 and -03 |
| ZoneLookup.FindRule | external/date/src/tz.cpp:1722-1775 | returns the stretch between consecutive rule instants that holds the queried instant, with its saving and abbreviation |
| ZoneLookup.QueryIsInstant | external/date/src/tz.cpp:866-877 | the year, date and time of day made of an instant stand for that instant if and only if the year fits a `short` |
| ZoneLookup.ThrowExact | external/date/src/tz.cpp:2617-2621 | the query throws for exactly the years out of range if and only if the year fits or wraps to the one stored year that is out of range |
| ZoneLookup.TimeLine | external/date/src/tz.cpp:1734-1735 | the timeline runs from 1 January -32767 to 31 December 32767 |
| ZoneLookup.WrappedQuery | external/date/src/tz.cpp:2617-2621 | the first instant of year 32769 passes for one of year -32767 |
| ZoneLookup.InfoFromLine | external/date/src/tz.cpp:2634-2669 | the three kinds of zone line, clipped at the line's own ends and with the formatted abbreviation, give the specified answer |
| ZoneLookup.GetInfo | external/date/src/tz.cpp:2610-2671 | for every instant: a UTC query throws exactly when the stored year is out of range, and otherwise the first line that ends later answers, for the instant itself when its year fits |
| ZoneLookup.TwoNames | external/date/src/tz.cpp:2634-2669 | an answer's offset is the line's with the saving, and a line with two names answers with the one for the saving |
| ZoneLookup.RuleLetters | external/date/src/tz.cpp:2652-2666 | a line with `%s` answers with the letters of the rule in force at the instant |
| ZoneLookup.SameThroughout | external/date/src/tz.cpp:2610-2671 | the interval of an answer holds the instant asked for, and every instant in it gives the same answer |
| ZoneLookup.AnswerUnique | external/date/src/tz.cpp:2610-2671 | there is one answer per instant |
| ZoneLookup.NextBegins | external/date/src/tz.cpp:2610-2671 | the end of an answer's interval is the begin of the next one: the intervals tile the timeline |
| Transitions.Classification | external/date/src/tz.cpp:2266-2305 | a local time is reported unique, ambiguous or nonexistent exactly when one, two or no instants show it, and they are the ones the offsets give |
| Transitions.ReportedInfos | external/date/src/tz.cpp:2266-2305 | `first` and `second` are the infos of the instants on either side, in chronological order |
| Transitions.InfoHolds | external/date/src/tz.cpp:2227-2264 | the interval of a UTC answer holds the instant asked for |
| Transitions.RegionInfo | external/date/src/tz.cpp:2227-2252 | an instant is answered with its transition's offset and name, with a minute of saving if and only if it is a daylight one, between the transitions around it |
| Transitions.NextInfoBegins | external/date/src/tz.cpp:2227-2264 | the end of an interval is the begin of the next |
| Transitions.TiledExact | external/date/src/tz.cpp:2227-2264 | every instant of an interval gets the same answer if and only if the first transition is no later than the first instant |
| Transitions.LocalRoundTrip | external/date/include/date/tz.h:914-959 | `to_sys` undoes `to_local`; on an ambiguous time `earliest` and `latest` give the smaller and the larger instant, and the strict form throws |
| Transitions.SkippedBecomesTransition | external/date/include/date/tz.h:932-959 | a skipped local time becomes the instant of the transition that skips it, and throws in the strict form |
| LeapSeconds.FromSysIncreasing | external/date/include/date/tz.h:1889-1898 | later instants stay later |
| LeapSeconds.SkippedSeconds | external/date/include/date/tz.h:1889-1898 | `from_sys` skips exactly one second per leap second |
| LeapSeconds.UtcRoundTrip | external/date/include/date/tz.h:1942-1953 | `to_sys` undoes `from_sys` everywhere if and only if the leap dates are spread as stated above |
| LeapSeconds.CloseLeapSeconds | external/date/include/date/tz.h:1942-1953 | with leap dates 0, 10, 20 and 21 the instant 19 comes back as 18 |
| LeapSeconds.InsertedSecond | external/date/include/date/tz.h:1903-1926 | an inserted second is recognised exactly when it ends by the next leap date, and then maps to the last tick before its own |
| LeapSeconds.LeapSecondsAreTheSkipped | external/date/include/date/tz.h:1903-1926 | `is_leap_second` marks exactly the skipped seconds if and only if the dates are spread by one more |
| LeapSeconds.UnrecognisedLeapSecond | external/date/include/date/tz.h:1903-1926 | with leap dates 0, 10 and 11 the second inserted at 10 is not recognised |
| Orders.TotalUpdate | lib/core/portfolio.cpp:100-120 | replacing a snapshot moves the recomputed position by the difference of the contributions |
| Orders.ContributionMeans | lib/core/portfolio.cpp:104-119 | an order contributes its traded quantity, negative for a sale, and that at its average price plus the fees |
| Queues.LBQueue.WaitPush | lib/utils/lock_based_queue.h:33-40 | adds at the back |
| Queues.LBQueue.WaitPop | lib/utils/lock_based_queue.h:43-50 | takes the front, once there is one |
| Queues.LBQueue.TryPop | lib/utils/lock_based_queue.h:52-61 | takes the front if there is one, and otherwise keeps the caller's item |
| Gateway.IBApi.SendOrder | lib/gateway/gateway.cpp:204-225 | a new order enters the map and its snapshot is emitted; a known id is a modification and does neither |
| Gateway.NewOrderIs | lib/gateway/gateway.cpp:204-225 | a new order has the request's fields and has traded, cost and failed nothing |
| Gateway.IBApi.OpenOrder | lib/gateway/gateway.cpp:227-244 | a known commission is stored and the new snapshot emitted |
| Gateway.IBApi.OrderStatus | lib/gateway/gateway.cpp:246-273 | status, traded quantity and price are stored and the snapshot emitted; an unknown order is ignored |
| Gateway.IBApi.Error | lib/gateway/gateway.cpp:149-167 | the message goes out, then the snapshot of the order it concerns, with the code |
| Engine.EventEngine.RegisterCb | lib/core/event.cpp:35-51 | registers or replaces a callback, unless running |
| Engine.EventEngine.CallAll | lib/core/event.cpp:63-75 | each consumer gets the event once for each of its callbacks |
| Engine.EventEngine.RunOnce | lib/core/event.cpp:53-78 | a round hands on the front event, in order; a stop event ends the loop |
| Engine.HandedMeans | lib/core/event.cpp:63-75 | a consumer is handed the front event as often as its callbacks are registered for the event's kind, and a stop event never |
| Engine.KindsAreTypes | lib/core/event.cpp:63-75 | each type of event has its own callbacks |
| PortfolioBook.PortfolioExact | lib/core/portfolio.cpp:94-122 | one snapshot keeps position and cost equal to the recomputation if and only if what it replaces has the same symbol and side or no bearing on the position |
| PortfolioBook.FirstSnapshot | lib/core/portfolio.cpp:94-122 | the first snapshot makes its shares, at their price and with fees, the only position |
| PortfolioBook.BuyAndSell | lib/core/portfolio.cpp:94-122 | ten bought at 10 in two fills and four sold at 12, with fees of 3, leave six for 55 |
| PortfolioBook.HistoryExact | lib/core/portfolio.cpp:94-122 | over any history they are equal all along if and only if that holds of every snapshot when it comes |
| PortfolioBook.ApplyConsistent | lib/core/portfolio.cpp:94-122 | in particular, a snapshot that keeps its order's symbol and side keeps them equal |
| PortfolioBook.ChangedSymbolIsInconsistent | lib/core/portfolio.cpp:106-120 | one share of A whose order turns into one for B stays in A's position, although no order for A is held |
| PortfolioBook.RedispatchChangesNothing | lib/core/portfolio.cpp:78-91 | dispatching the last event again changes nothing |
| PortfolioBook.HistoryIsRecomputed | lib/core/portfolio.cpp:94-122 | after any history the book holds every order's latest snapshot, and all positions and costs are their sums |
| PortfolioBook.TimeoutsAreHarmless | lib/core/portfolio.cpp:78-91 | any number of timeouts, anywhere, leave the book that the popped snapshots alone make |
| PortfolioBook.Portfolio.AddToPortfolio | lib/core/portfolio.cpp:46-56 | makes room for a position, only before running, and changes no position |
| PortfolioBook.Portfolio.OrderDataCb | lib/core/portfolio.cpp:94-122 | the callback on the fields is the specified change of the book |
| PortfolioBook.Portfolio.RunOnce | lib/core/portfolio.cpp:78-91 | a round dispatches the popped event, or on a timeout the one before |
| Pipeline.ConservedStep | lib/core/event.cpp:53-90 | every step of every thread keeps taken, queued, being delivered and pending order events equal to the emission history, in order |
| Pipeline.NothingLost | lib/core/event.cpp:53-90 | the same after every run of every interleaving |
| Pipeline.SendStep | lib/gateway/gateway.cpp:204-225 | sending uses up the next id, enters the new order and takes its snapshot |
| Pipeline.AnswerStep | lib/gateway/gateway.cpp:149-273 | an answer about a known order changes exactly the fields it is about and takes the snapshot; about an unknown one it does nothing |
| Agreement.NothingWaits | lib/gateway/gateway.cpp:149-273 | at any time in any run any order may be sent, any answer may come, any snapshot under way be emitted, and each queue be served |
| Agreement.StepAccounts | lib/gateway/gateway.cpp:149-273 | every step keeps: each order has been reported, and each report is of a known order with its source, symbol and side |
| Agreement.TurnStep | lib/gateway/gateway.cpp:149-273 | a step keeps the last snapshot taken of each order the last to be emitted if and only if it is no spoiling emission |
| Agreement.RunInTurn | lib/gateway/gateway.cpp:149-273 | a run stays in turn all along if and only if none of its steps spoils it |
| Agreement.PositionsAsEmitted | lib/core/portfolio.cpp:94-122 | in every run, once drained, each (algo, symbol) position and cost is that of the orders as last emitted |
| Agreement.PositionsMatchGateway | lib/core/portfolio.cpp:94-122 | in every run in turn, whatever overlaps, it is once drained the signed sum over the gateway's order map |
| Draining.CanBeLast | lib/gateway/gateway.cpp:157-165 | any snapshot under way can have the last word on its order |
| Draining.DrainExact | lib/gateway/gateway.cpp:149-273 | from any state of any run, every way of draining ends with the map's positions if and only if the snapshots of one order under way contribute alike and emission in turn would match |
| Draining.DrainExactInTurn | lib/gateway/gateway.cpp:149-273 | while in turn, if and only if each snapshot under way contributes what the map's entry does |
| Draining.OvertakenRun | lib/gateway/gateway.cpp:149-273 | a run in which a fill overtakes a refusal ends with ten traded in the map and a position of none |
| Pipeline.EngineRound | lib/core/event.cpp:53-78 | the pop and all its deliveries, in any order, hand each consumer what a round of the loop does |
| Pipeline.DeliveriesExist | lib/core/event.cpp:53-78 | the deliveries of an event can always be made, whatever the callbacks |
| AlgoEngine.Engine.SendOrderNow | lib/algo/algo_engine.cpp:157-177 | the fields after a sent or a refused order |
| AlgoEngine.Engine.UpdatePosCb | lib/algo/algo_engine.cpp:124-155 | cancel once, retry, fail on a second new target, or order the difference |
| AlgoEngine.Engine.OrderCb | lib/algo/algo_engine.cpp:184-216 | a snapshot of an own order moves the position, and a closing one frees the engine |
| AlgoEngine.Engine.RunOnce | lib/algo/algo_engine.cpp:90-113 | a round takes the front event and handles it |
| AlgoEngine.NoOrderCancelledTwice | lib/algo/algo_engine.cpp:124-141 | whatever the broker sends, between two cancellations the second order has been sent |
| AlgoEngine.RunKeepsInv | lib/algo/algo_engine.cpp:124-216 | every run keeps the engine's invariant, if the broker is silent about finished orders |
| AlgoEngine.EveryRun | lib/algo/algo_engine.cpp:124-216 | position as signed sum, at most one live own order and it is the one in flight, cancellation only while one is, and within one of the target when idle after a full fill |
| AlgoEngine.FinalStatusFrees | lib/algo/algo_engine.cpp:200-214 | Filled, Cancelled, ApiCancelled, Inactive or an error frees the engine and ends a pending cancellation |
| AlgoEngine.WorkingStatusHolds | lib/algo/algo_engine.cpp:200-214 | the other four without an error leave the order in flight and a cancellation pending |
| AlgoEngine.OrderedIs | lib/algo/algo_engine.cpp:157-177 | a positive quantity is bought, a negative one sold, in the engine's own name |
| AlgoEngine.TargetServedAfterEnd | lib/algo/algo_engine.cpp:124-155 | in any run, for any broker: once an own order has ended, the next target is met by no order or sent at once, and never by a cancellation |
| AlgoEngine.FullFillReachesTarget | lib/algo/algo_engine.cpp:184-216 | in any run with a silent broker, the full fill of the order in flight brings the position to its target |
| AlgoEngine.TargetAfterFullFill | lib/algo/algo_engine.cpp:124-216 | and the next target is met by no order or by one for exactly the difference of the two targets |
| AlgoEngine.FilledRun | lib/algo/algo_engine.cpp:124-216 | an order for ten fills and the next target of twenty sends ten more |
| AlgoEngine.LateSnapshot | lib/algo/algo_engine.cpp:203-206 | a late snapshot of a finished order keeps the position right if and only if its order had traded what the engine counts as filled |
| AlgoEngine.LateSnapshotExact | lib/algo/algo_engine.cpp:184-216 | it keeps the whole invariant, with an order in flight or idle, if and only if it is harmless |
| AlgoEngine.LateSnapshotInOrder | lib/algo/algo_engine.cpp:184-216 | the conclusions of `EveryRun` hold after it if and only if it is bearable, a weaker condition |
| AlgoEngine.RunExact | lib/algo/algo_engine.cpp:124-216 | for any broker, a run keeps the invariant all along if and only if every late snapshot in it is harmless when processed |
| AlgoEngine.LateRun | lib/algo/algo_engine.cpp:124-216 | a run with error 202 and then the status of the same order ends with two live orders and a fill counted twice |
| HistChunks.GenerateRequests | lib/data/historical_data.cpp:119-157 | the requests tile the range, each at most `days` long, seconds only in the last and only for a span of no whole days |
| HistChunks.RequestsUnique | lib/data/historical_data.cpp:131-155 | tiling and shape determine the requests: no other list satisfies them |
| HistChunks.FiveAndAHalfDays | lib/data/historical_data.cpp:119-157 | five and a half days in requests of two are two, two and one day and 43200 seconds |
| HistDownload.StepInv | lib/data/historical_data.cpp:174-233 | a sent request, an end or an error keeps: one token per symbol in progress, for its current chunk, and the counter right |
| HistDownload.CounterAndTokens | lib/data/historical_data.cpp:49-233 | in every run `remaining` counts the symbols in progress, each has exactly one chunk queued or outstanding, and chunks went out in order |
| HistDownload.RepliesFindTheirChunk | lib/data/historical_data.cpp:174-190 | in every run an end of a waiting request finds a registered symbol with a chunk to end |
| HistDownload.NothingWaits | lib/data/historical_data.cpp:49-233 | at any time in any run each awaited reply may come, as an end or an error, and so may an error about something else; a queued request can be sent exactly while symbols remain |
| HistDownload.Finishes | lib/data/historical_data.cpp:49-71 | a download takes no more replies than there are chunks, and until nothing remains there is always a request to send or a reply to wait for |
| HistDownload.SuccessMeansAllChunks | lib/data/historical_data.cpp:174-212 | a symbol that succeeds has had all its chunks sent, once, in order |
| HistDownload.SuccessCoversTheRange | lib/data/historical_data.cpp:98-212 | the requests sent for it tile the range that was asked for |
| HistBarGetters.HistBarGetter.constructor | lib/data/historical_data.cpp:98-116 | `init` prepares the chunks of every symbol with a range, and the counter |
| HistBarGetters.HistBarGetter.QueueFirstChunks | lib/data/historical_data.cpp:51-53 | one chunk per symbol is queued, in any order: the start of every run |
| HistBarGetters.HistBarGetter.SendRound | lib/data/historical_data.cpp:56-68 | a round sends the front request and registers its id |
| HistBarGetters.HistBarGetter.ProcessHistBarEnd | lib/data/historical_data.cpp:174-212 | the callback on the fields is the specified step |
| HistBarGetters.HistBarGetter.ProcessErrMsg | lib/data/historical_data.cpp:214-233 | so is that for errors |
| HistBars.MergeBars | lib/data/historical_data.cpp:235-246 | the saved bars are strictly ascending, are among the bars received and have exactly their times |
| HistBars.MergedRowsUnique | lib/data/historical_data.cpp:235-246 | there is one ascending list of some bars |
| HistBars.ArrivalOrderPlaysNoPart | lib/data/historical_data.cpp:235-246 | two merges of the same bars, arrived in any order and any number of times, are equal when bars of one time are one bar |
| Framing.LengthRoundTrip | external/tws/client/EClientSocket.cpp:181-196 | `ntohl` undoes `htonl` on all 32-bit numbers, as the signed ints they stand for |
| Framing.FramesOnTheWire | external/tws/client/EClientSocket.cpp:181-196 | the four bytes before 3 and before 70000 bytes, and before too many |
| Framing.HeaderRoundTrip | external/tws/client/EReader.cpp:204-214 | one header per length |
| Framing.FirstOfFrame | external/tws/client/EReader.cpp:204-222 | a frame at the front of a stream is read if and only if its payload is not too long |
| Framing.PayloadsFill | external/tws/client/EReader.cpp:204-222 | any stream is the frames of what is read from it, and a rest without a readable frame |
| Framing.CutStream | external/tws/client/EReader.cpp:184-222 | cut after any number of bytes, a stream yields exactly the payloads that arrived whole |
| Framing.AllReadIff | external/tws/client/EClientSocket.cpp:188-192 | everything that was sent is read if and only if no payload exceeds the limit |
| Framing.TooLongStopsTheReader | external/tws/client/EReader.cpp:213-214 | a payload one byte over the limit, and everything after it, is not read |
| Framing.FramesInjective | external/tws/client/EReader.cpp:204-222 | frames that start a stream of frames are the first payloads of it |
| Wire.EClientSocket.CleanupBuffer | external/tws/client/ESocket.cpp:80-101 | drops exactly the processed bytes |
| Wire.EClientSocket.SendBufferedData | external/tws/client/ESocket.cpp:49-60 | moves a prefix of the buffer to the socket |
| Wire.EClientSocket.BufferedSend | external/tws/client/ESocket.cpp:29-47 | old bytes go before new ones, and what the socket does not take, also after a failure, stays in the buffer |
| Wire.EClientSocket.EncodeMsgLen | external/tws/client/EClientSocket.cpp:181-196 | writes the length in front of the payload, or reports an error and leaves the header empty |
| Wire.EClientSocket.CloseAndSend | external/tws/client/EClientSocket.cpp:198-209 | the message, with its header, follows everything sent before; the socket is asked once, and only its failure can make this one fail |
| Wire.EClientSocket.SendMessage | external/tws/client/EClientSocket.cpp:181-218 | accepted plus buffered bytes grow by exactly the frame of the payload |
| Wire.EReader.OnReceive | external/tws/client/EReader.cpp:171-182 | a receive of any positive size appends to the buffer |
| Wire.EReader.BufferedRead | external/tws/client/EReader.cpp:184-202 | takes exactly `size` bytes off the stream, also more than the buffer holds, or fails when there are fewer |
| Wire.EReader.ReadSingleMsg | external/tws/client/EReader.cpp:204-222 | returns the first payload of the stream, however it was cut up |
| Wire.EReader.PutMessageToQueue | external/tws/client/EReader.cpp:89-106 | queues it; delivered frames, partial frame and buffer are always the bytes received |
| Wire.EReader.ReadToQueue | external/tws/client/EReader.cpp:74-87 | the reading loop queues all payloads of the stream, in order |
| Wire.EReader.GetMsg | external/tws/client/EReader.cpp:258-269 | hands out the queued messages in order |
| Wire.DeliveredInOrder | external/tws/client/EReader.cpp:171-222 | when the bytes of both ends add up, the delivered messages are the first of those sent |
| Wire.DeliveredWhole | external/tws/client/EReader.cpp:171-222 | the payloads of the accepted bytes are the messages accepted whole; with an empty send buffer that is all of them |
| Connection.StepKeeps | external/tws/client/EReader.cpp:171-222 | every post, flush, receive and read of every size keeps the byte accounting of both ends |
| Connection.AnyPostIsAStep | external/tws/client/ESocket.cpp:25-47 | the steps cover a post of which the socket takes any number of bytes |
| Connection.AnyFlushIsAStep | external/tws/client/ESocket.cpp:49-60 | and a flush of any number of bytes |
| Connection.AnyArrivalIsAStep | external/tws/client/EReader.cpp:171-202 | and, when the reader needs more, a receive of any number that fits |
| Connection.WantsTheRest | external/tws/client/EReader.cpp:204-222 | in the middle of a message the reader wants what is missing of its header, and then of its payload |
| Connection.AlwaysInOrder | external/tws/client/EReader.cpp:171-222 | at any time in any run of sender and reader, the delivered messages are the first of those posted |
| Connection.ReaderProgress | external/tws/client/EReader.cpp:184-202 | unless it is idle the reader has a step, and each of its steps uses up bytes |
| Connection.IdleMeansDelivered | external/tws/client/EReader.cpp:171-222 | in any run, an idle reader has delivered every message accepted whole; with an empty send buffer that is all of them if and only if none is too long |
| Connection.Session | external/tws/client/ESocket.cpp:25-101 | the objects themselves: posts with arbitrary partial sends and flushes, then reading, queue exactly those messages |
| Fields.NextFieldExact | external/tws/client/EDecoder.cpp:2595-2604 | a field is read exactly when the text, free of NUL, and a NUL are at the front |
| Fields.DecimalRoundTrip | external/tws/client/EDecoder.cpp:2615-2626 | an int printed in decimal is read back, by `atoi` and by a stream |
| Fields.AtoiWraps | external/tws/client/EDecoder.cpp:2615-2626 | a number beyond the range of a long reads as 0 or -1, and any other as the int it is equal to modulo 2^32 |
| Fields.StreamStops | external/tws/client/VolumeCondition.cpp:16-22 | a number read from a stream stops at the limits of an int |
| Fields.BeforeTheNumber | external/tws/client/EDecoder.cpp:2615-2626 | blanks and a plus sign change nothing, and any other character in front makes it zero |
| Fields.AfterTheNumber | external/tws/client/EDecoder.cpp:2615-2626 | the number ends at the first character that is no digit |
| Fields.PrintableMeans | external/tws/client/EClient.cpp:86-91 | the characters from the blank to the tilde may be sent, and no others |
| OrderConditions.ConditionRoundTrip | external/tws/client/OrderCondition.cpp:15-27 | each condition that was written is read back by the reader of its type, whatever follows |
| OrderConditions.VolumeRoundTrip | external/tws/client/ContractCondition.cpp:15-30 | volume conditions, with contract id and exchange after the operator part |
| OrderConditions.ExecutionRoundTrip | external/tws/client/executioncondition.cpp:9-30 | execution conditions |
| OrderConditions.OperatorRoundTrip | external/tws/client/OperatorCondition.cpp:9-33 | the operator part: connector, direction and value |
| OrderConditions.ListRoundTrip | external/tws/client/EOrderDecoder.cpp:592-604 | any list of conditions |
| OrderConditions.RoundTrip | external/tws/client/EOrderDecoder.cpp:585-612 | list and flags are read back and exactly the bytes written are used, whatever follows; if and only if there are conditions or the reader has the same flags |
| OrderConditions.FourConditionsReturn | external/tws/client/EOrderDecoder.cpp:585-612 | one condition of each type comes back with any int and any text that may be sent |
| OrderConditions.FlagsWithoutConditions | external/tws/client/EClient.cpp:1987-1995 | flags set on an order without conditions do not arrive |
| OrderConditions.WrittenFields | external/tws/client/OrderCondition.h:15-22 | the fields of the four conditions, with their types and connectors |
| OrderConditions.WrittenOrder | external/tws/client/EClient.cpp:1985-1995 | a whole order's conditions, field by field |
| OrderConditions.OtherTypes | external/tws/client/OrderCondition.cpp:43-76 | a type that no condition has makes the read fail |
| MessageCoding.OutStream.EncodeString | external/tws/client/EClient.cpp:76-91 | a text is written if and only if all its characters are printable |
| MessageCoding.OutStream.WriteOperator | external/tws/client/OperatorCondition.cpp:28-33 | writes connector, direction and value |
| MessageCoding.OutStream.WriteContract | external/tws/client/ContractCondition.cpp:25-30 | and then contract id and exchange |
| MessageCoding.OutStream.WriteExecution | external/tws/client/executioncondition.cpp:24-30 | the fields of an execution condition |
| MessageCoding.OutStream.WriteExternal | external/tws/client/OrderCondition.cpp:25-27 | dispatches on the type of the condition |
| MessageCoding.OutStream.WriteConditions | external/tws/client/EClient.cpp:1985-1995 | writes count, conditions and flags, and fails exactly when some text is not printable |
| MessageCoding.Cursor.DecodeString | external/tws/client/EDecoder.cpp:2680-2692 | moves the pointer over one field, or fails when there is none |
| MessageCoding.Cursor.DecodeInt | external/tws/client/EDecoder.cpp:2615-2626 | the same for an int |
| MessageCoding.Cursor.DecodeBool | external/tws/client/EDecoder.cpp:2606-2613 | the same for a flag |
| MessageCoding.Cursor.ReadOperatorFields | external/tws/client/OperatorCondition.cpp:9-22 | reads the operator part |
| MessageCoding.Cursor.ReadVolume | external/tws/client/ContractCondition.cpp:15-23 | reads a volume condition |
| MessageCoding.Cursor.ReadExecution | external/tws/client/executioncondition.cpp:9-18 | reads an execution condition |
| MessageCoding.Cursor.ReadExternal | external/tws/client/OrderCondition.cpp:43-76 | creates and reads a condition of a type; an unknown type is a failure |
| MessageCoding.Cursor.DecodeConditions | external/tws/client/EOrderDecoder.cpp:585-612 | the loop over the pointer is the specified reading of the whole block |
| MessageCoding.SendAndRead | external/tws/client/EOrderDecoder.cpp:585-612 | from the writer to the reader: refused exactly for texts that may not be sent, otherwise the same list and flags |
| Base64.RoundTrip | external/tws/utils/Utils.cpp:19-58 | decoding inverts the encoding of section 4 of RFC 4648 for every byte string, whatever follows the padding |
| Base64.PlacesInAlphabet | external/tws/utils/Utils.cpp:10-17 | `is_base64` holds of exactly the characters of the table, and each has its own place |
| Base64.Base64Decode | external/tws/utils/Utils.cpp:19-58 | the loops over the four- and three-byte arrays compute the specified bytes, with the junk of missing sextets cut off |

## Left out

- Threads, mutexes, start and stop, sleeps, `select`, sockets, Redis, Arrow, CSV, YAML and logging: only lock-delimited steps and queues remain.
- Time-zone text and TZif reading, installation, and zone names; the trimming to the used years and the loop over names in `split_overlaps(rules)`.
- ZoneLookup.FindRule: queries by local time are not modelled; only instants in UTC are searched for.
- ZoneLookup.GetInfo: rule instants and line ends are taken to increase, and lines to be sound, as `ZoneAdjust` defines it; the preparation on first use is a step of its own.
- ZoneAdjust.AdjustInfos: the lookup of a rule name and the parsing of a saving have been done.
- Transitions.Classification: the table has transitions more than two days apart that move the clock by at most a day, before the last representable instant.
- RuleSplit.RuleTable.Sort: `std::sort` is any sorted arrangement; which of several is not fixed, and no result depends on it.
- RuleSplit.RuleTable.SplitAll: rules whose range runs backwards are excluded.
- Portfolio and algo engine: profit and loss on timer events, market data, and the field `order_target`, which nothing reads.
- Engine.EventEngine.RunOnce: callbacks are modelled as pushes to a consumer's queue; a callback that throws is not.
- PortfolioBook.Portfolio.RunOnce: before the first event there is none to dispatch again; the first event of the source starts uninitialised.
- Pipeline.NothingLost: order events have one callback per consumer, and the engine is not stopped.
- AlgoEngine.EveryRun: order ids are fresh, snapshots show the side and symbol requested, and the broker is silent about finished orders; `RunExact` says what holds without that silence. That the newest target wins is not claimed: a retried older one may come later.
- Gateway.IBApi.SendOrder: contracts, order types and the placing call itself.
- Risk limits: their order sets do not follow the broker's ids.
- HistDownload.CounterAndTokens: one reply per request, after its id is registered; saving succeeds, since a failed save sets the status without counting down.
- HistBars.MergeBars: the time string is a key of its order; building and writing the table is left out.
- HistBarGetters.HistBarGetter.ProcessHistBarEnd: an end beyond the last chunk, which would read past the vector, is excluded; by `RepliesFindTheirChunk` no run has one.
- Wire.EReader.OnReceive: receives that return nothing leave the buffer filled up with zeros and are excluded; so is the branch for old servers without length headers.
- Wire.EClientSocket.CloseAndSend: message and buffer sizes fit an `int`, as the assertion in `CleanupBuffer` takes for granted; which errors close the socket is left open.
- MessageCoding.Cursor.ReadExternal: price and percent-change conditions are reported as not read.
- OrderConditions.RoundTrip: price and percent-change conditions, whose doubles lose digits when printed; numbers are C++ ints and the list is no longer than an `int` counts.
- The rest of `placeOrder` and of the order decoder, whose layouts differ in the two directions.
- Base64.Base64Decode: strings longer than an `int` counts.
- Floating-point rounding.
