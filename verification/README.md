# quant1x, modelled and proved in Dafny

This project models six parts of quant1x and proves what they are for. Quantities of bits, bytes, counts and
instants are `int` or `nat`; prices, money and averages are exact `real`s. Code that updates objects or runs loops is
modelled by classes and methods, each proved equal to a function of its inputs or of the old state; the theorems are
lemmas about those functions.

| part | modules |
|---|---|
| Cron expressions: parsing into bit sets and the jump search for the next firing | `Words`, `Calendar`, `Cron`, `CronParse`, `CronGrammar`, `CronLaws`, `CronSentences`, `CronTexts` |
| Two trade ledgers, FIFO round trips and average-cost positions, and the engine that feeds both | `Trades`, `RoundTrips`, `FifoLaws`, `FifoQueues`, `FifoOrder`, `Positions`, `Agreement`, `Engine` |
| Parallel updates: chunks, semaphore, task queue, ordered output, and thread-safe singletons | `Aggregation`, `Semaphore`, `FanOut`, `TaskQueue`, `Singleton`, `SingletonCalls` |
| The interval set `NumberRange` | `NumberRange`, `NumberRangeExactness` |
| The lock-free bounded queue for many producers and consumers | `RingBuffer`, `RingBufferAnswers` |
| Kernels: powers of two, byte streams and varints, mergeable moments, sliding deviation | `PowerOfTwo`, `ByteStream`, `Welford`, `RollingStd` |

`Common` holds the helpers they share. How each part is set up:

- **Cron.** A bit set is a natural number with digit-wise `And`, `Or` and shifts. Local time in a fixed-offset zone is
  the number of seconds since 1 January of year 1; `Calendar` derives the civil fields, the weekday and Go's
  normalising `time.Date`, and proves them inverse. The reference for `Next` tries every second in turn.
- **Ledgers.** Both ledgers are functions from a trade list to their state. `State` of the FIFO side also records what
  the `EPS` test drops, so the conservation laws hold for all quantities; with quantities in whole multiples of a unit
  larger than `EPS` (shares are) it is proved to be zero.
- **Concurrency.** Each protocol is a state machine whose steps are the atomic sections of the code, taken by any
  thread in any order, with spurious wakeups. Claims are about every run of that machine. Progress claims say that some
  thread can move and that every step but a spurious wakeup lowers a measure; they assume no fairness.
- **Lock-free queue.** Every atomic access is a step of its own, weak compare-exchanges may fail without reason, and
  blocking and `try_` calls by any number of threads interleave freely.
- **Streams.** The stream is a byte sequence with an offset; a typed list of items is written and read through
  functions that the class's methods are proved to compute.

Where the code and what is said about it differ, the model follows the code:

- `_merge_ranges` documents joining adjacent ranges only if one of the touching ends is included; the code joins
  touching ranges always, and where ranges share an end it keeps the flag of the earlier one. Two open ranges that
  touch swallow the point between them (`NumberRangeExactness.OpenRangesTouch`); `NumberRangeExactness.AddedExact`
  says exactly which additions keep the union, and `NumberRangeExactness.UnionExactly` lifts it to runs.
- `Next` is said to search four years; it searches to the end of the fourth year after the first candidate's, and so
  answers "nothing" for some expressions that fire later: 29 February around 2100 (`CronLaws.LeapDayGap`), but also,
  for instance, 1 January on a Monday during 2018 (`CronLaws.MondayGap`). Inside the four years it does find
  what is there (`CronLaws.LeapDayFound`). `CronLaws.YearFound` says for every year and
  every parsed expression whether this happens, `CronLaws.AlwaysFound` when it never does.
- `rolling_std` and `rolling_std_optimized` differ for period 1 and for no other (`RollingStd.FormsAgree`).
- The `EPS` test drops the rest of a lot when a closing fill stops within `EPS` of its end, and only then
  (`FifoLaws.SettleDrops`, `FifoLaws.RunDrops`).
- The queue's constructors accept a capacity of 1, but with a single slot a second push overwrites the first element
  (`RingBuffer.OneSlotOverwrites`); from two slots on every promise holds (`RingBuffer.SafeFromTwoSlots`).
- A purchase that meets an entry of quantity zero is lost to the position manager, because `emplace` does not overwrite
  (`Agreement.ZeroPurchaseBlocks`). Together with the `EPS` test this is all that can separate the two ledgers
  (`Agreement.HoldingsAgreeExactly`, `Agreement.LedgerGap`).

## Model

| member | source | states |
|---|---|---|
| Cron.FindNextSetBit | quant1x/base/cron.go:392-399 | The result is the first set index after the current one and below the maximum; the invalid index means there is none |
| Cron.FirstMatchIsLeast | quant1x/base/cron.go:270-271 | The second-by-second reference finds the least match of its range, and finds one whenever there is one |
| Cron.MonthJump | quant1x/base/cron.go:308-325 | Jumping to the next set month, or past December, moves forward and passes over no matching instant |
| Cron.DayJump | quant1x/base/cron.go:343-355 | Jumping to the next midnight passes over no match when the day does not match or no later hour of it is allowed |
| Cron.HourJump | quant1x/base/cron.go:350-367 | The same for jumping to a later hour |
| Cron.MinuteJump | quant1x/base/cron.go:362-379 | The same for jumping to a later minute |
| Cron.SecondJump | quant1x/base/cron.go:374-381 | The same for jumping to a later second |
| Cron.CheckDate | quant1x/base/cron.go:288-346 | One pass of the month and day checks stays put only on a matching date, else moves past instants that do not match |
| Cron.CheckHour | quant1x/base/cron.go:348-358 | The hour check likewise |
| Cron.CheckMinute | quant1x/base/cron.go:360-370 | The minute check likewise |
| Cron.CheckSecond | quant1x/base/cron.go:372-382 | The second check likewise |
| Cron.Next | quant1x/base/cron.go:271-386 | With any table the search ends and returns only matches after t and before the horizon; where the fields fit the calendar it returns what trying every second returns |
| Calendar.FieldsOfDateTime | quant1x/base/cron.go:288-380 | Year, month, day and clock of a constructed civil time are the ones it was constructed from |
| Calendar.InstantOfFields | quant1x/base/cron.go:289-380 | Constructing a civil time from an instant's own fields gives the instant back |
| Calendar.MonthSpan | quant1x/base/cron.go:306-325 | Between an instant and the first of a later month of its year, the month only takes the values in between |
| Calendar.YearReached | quant1x/base/cron.go:281-286 | An instant lies in a year from y on exactly when it is not before 1 January of y |
| Calendar.DayNumberClosed | quant1x/base/cron.go:288-380 | The day number of every valid date in closed form, from years and months that begin in March |
| CronLaws.NextIsLeast | quant1x/base/cron.go:271-386 | Next is m exactly when m is the least matching second strictly after t within the horizon; it finds nothing exactly when there is no such second |
| CronLaws.NextIsExact | quant1x/base/cron.go:79-114 | Over the built-in tables, and for expressions parsed over any table that fits the calendar, the search is exact |
| CronLaws.FiringsEnumerate | quant1x/base/cron.go:271-386 | Iterating Next lists matching seconds in increasing order with none missing, and stops early only where Next finds nothing |
| CronLaws.FiresWhenListed | quant1x/base/cron.go:122-386 | A parsed expression fires at an instant exactly when each calendar field, in the table's numbering, is among the values its text lists |
| CronLaws.YearFound | quant1x/base/cron.go:280-286 | From every time with its first candidate in year y a parsed expression is found, if and only if some date of y + 1 to y + 4 is allowed or the last second of y matches |
| CronLaws.AlwaysFound | quant1x/base/cron.go:280-286 | It is found from everywhere if and only if that holds for 400 consecutive years, after which the calendar repeats |
| CronLaws.AlwaysFires | quant1x/base/cron.go:280-386 | With every weekday allowed it is always found if and only if some allowed month has an allowed day in every year |
| CronLaws.LeapDayGap | quant1x/base/cron.go:280-286 | An instance: from March 2096 to the end of 2099 an expression for 29 February finds nothing although it matches in 2104 |
| CronLaws.MondayGap | quant1x/base/cron.go:280-286 | An instance without leap days: from 2 January to the end of 2018 an expression for 1 January on a Monday finds nothing although it matches in 2024 |
| CronLaws.LeapDayFound | quant1x/base/cron.go:280-286 | From March to December 2020 an expression for 29 February finds 29 February 2024, the last year the search reaches |
| CronLaws.BitsetToString | quant1x/base/cron.go:430-440 | The printed digits are the bits from the highest to the lowest |
| CronLaws.BitsetStringFaithful | quant1x/base/cron.go:405-440 | Two parsed expressions print the same bit sets exactly when they are Equal |
| CronLaws.EqualFireAlike | quant1x/base/cron.go:405-416 | Equal expressions have the same Next at every time, whichever built-in table each was parsed with |
| CronLaws.WordWidth | quant1x/base/cron.go:122-172 | Every field of a parsed expression has at least one bit and none beyond the field's width |
| CronParse.SetProgression | quant1x/base/cron.go:218-228 | The loop adds exactly the terms start, start + delta, ... up to end, shifted by the field minimum |
| CronParse.ParseField | quant1x/base/cron.go:174-232 | Fails exactly when the field has no meaning; otherwise the bits are exactly its values |
| CronParse.PartsValuesInRange | quant1x/base/cron.go:194-231 | A successful parse yields no empty set and no value outside the field |
| CronParse.ParsedWord | quant1x/base/cron.go:174-232 | So its word is nonzero and fits the field's width |
| CronParse.MakeCronWithTraits | quant1x/base/cron.go:122-172 | Succeeds exactly when there are six well-formed fields, with each word representing its field's values |
| CronGrammar.RangeRoundTrip | quant1x/base/cron.go:234-268 | Parsing a rendered star, numeral or span returns its bounds, or fails exactly when it is out of bounds or reversed |
| CronGrammar.PartRoundTrip | quant1x/base/cron.go:195-230 | Parsing a rendered part succeeds exactly when the part is valid, and then walks exactly its values |
| CronGrammar.PartAccepted | quant1x/base/cron.go:195-268 | Every text accepted as a part is the rendering of a valid part |
| CronGrammar.AcceptedExactly | quant1x/base/cron.go:174-232 | A field is accepted if and only if its text, names substituted, is a list of valid parts, and then yields exactly their values |
| CronGrammar.FieldRoundTrip | quant1x/base/cron.go:174-232 | Rendered lists, ranges and steps of numerals and names in any case mean what they say, every name read as its first index, and fail exactly when a part is invalid |
| CronGrammar.SubstituteField | quant1x/base/cron.go:181-192 | Name substitution turns a field of numerals and names into the same field with every name replaced by its index |
| CronSentences.SentenceParses | quant1x/base/cron.go:122-172 | Six rendered fields joined by blanks parse if and only if all their parts are valid |
| CronSentences.SentenceFires | quant1x/base/cron.go:122-386 | And then the expression matches exactly the instants all of whose fields lie in the meanings of its fields |
| CronTexts.QuestionMarks | quant1x/base/cron.go:145-166 | A line with question marks in place of stars in the two day fields parses exactly when the line with the stars does, to the same words |
| CronTexts.QuestionElsewhere | quant1x/base/cron.go:131-159 | In the other four fields a question mark makes the line unreadable |
| CronTexts.SpaceSeparates | quant1x/base/cron.go:123-126 | Any of the six ASCII white-space characters separates fields, wherever it stands |
| CronTexts.AtoiReads | quant1x/base/cron.go:239-262 | Digits behind at most one sign read as their number within 64 bits; leading zeros do not count |
| CronTexts.LineParses | quant1x/base/cron.go:122-172 | Six texts parse, over any table, exactly when each of them stands for some values |
| CronTexts.NumberFires | quant1x/base/cron.go:45-114 | A number in a field lets through exactly the instants whose second, minute, hour, day, month or weekday is that number: months from 0 for Oracle, weekdays from 0 for the standard table only |
| CronTexts.DayNameFires | quant1x/base/cron.go:69-77 | In any of the three tables, and in any case of letters, MON lets through exactly the days a whole number of weeks after 1 January of year 1, and so on to SUN |
| CronTexts.MonthNameFires | quant1x/base/cron.go:69-77 | Likewise JAN to DEC let through exactly the months 1 to 12 |
| CronTexts.NamedParses | quant1x/base/cron.go:192-204 | A line with such a name parses exactly when the line with a star there does |
| CronTexts.PrintedWords | quant1x/base/cron.go:418-440 | What is printed of a parsed expression are its six words in binary, each in the width of its field |
| RoundTrips.SettleLoop | quant1x/backtest/stats.cpp:34-56 | The inner loop leaves the queue, the open need and the counters that settling one fill against the queue yields |
| RoundTrips.ComputeRoundTripStats | quant1x/backtest/stats.cpp:10-107 | The counters are those of the books after the whole list; with the profits of all round trips: closed, winning and losing count them, and win rate, averages and ratio times their divisors give what they divide, 0 where there is nothing to divide by |
| RoundTrips.SettleCounts | quant1x/backtest/stats.cpp:34-56 | A fill counts each lot it closes as won, with its profit, where what it brought in exceeds its cost, and as lost, with its loss, otherwise |
| RoundTrips.TallyOfRun | quant1x/backtest/stats.cpp:27-91 | Over every run closed, winning, profit and loss are the number of round trips, of those with a positive profit, the sum of these profits, and minus the sum of the others |
| RoundTrips.SettleConservesUnits | quant1x/backtest/stats.cpp:34-60 | What a fill takes, plus what the EPS test drops, leaves the queue; a fill with units to spare empties it |
| RoundTrips.SettleConservesValue | quant1x/backtest/stats.cpp:34-60 | The value of what a fill takes is the profit it realizes plus the cost that leaves the queue |
| FifoLaws.RunConsistent | quant1x/backtest/stats.cpp:27-91 | After any trades, the long and short queues of a symbol are never both open and all lots are positive |
| FifoLaws.QueuesOfSymbol | quant1x/backtest/stats.cpp:23-91 | The queues of a symbol depend on that symbol's trades only |
| FifoQueues.FirstInFirstOut | quant1x/backtest/stats.cpp:27-91 | After every run the open lots of a symbol are the latest ones that were opened, in that order; only the oldest may be partly closed |
| FifoLaws.UnitsConserved | quant1x/backtest/stats.cpp:27-91 | Queued long minus queued short, plus what the EPS test dropped, is the signed trade total |
| FifoLaws.ValueConserved | quant1x/backtest/stats.cpp:27-91 | Sale proceeds minus purchases are realized profit, closed and partial, minus open long cost plus open short proceeds |
| FifoLaws.SettleDrops | quant1x/backtest/stats.cpp:34-56 | A fill drops nothing if and only if, going through the lots before the call, it never stops within EPS of the end of a lot |
| FifoLaws.RunDrops | quant1x/backtest/stats.cpp:27-91 | A run drops nothing if and only if each of its fills ends so |
| FifoLaws.SettleExact | quant1x/backtest/stats.cpp:26-54 | With quantities in whole units above EPS, a fill drops nothing and leaves whole units |
| FifoLaws.NothingDropped | quant1x/backtest/stats.cpp:26-54 | The same over every run, so the conservation laws hold without remainder |
| FifoLaws.SliverDropped | quant1x/backtest/stats.cpp:26-52 | The smallest failing run: a sale that leaves at most EPS of a purchase closes the lot, and exactly the rest is dropped |
| FifoOrder.InterleavingIrrelevant | quant1x/backtest/stats.cpp:27-106 | Trade lists with the same trades in the same order for each symbol end in the same books and the same statistics |
| FifoOrder.SettleSplit | quant1x/backtest/stats.cpp:34-60 | Settling a + b units is settling a and then b, as long as a fits the queue |
| FifoOrder.SplitFill | quant1x/backtest/stats.cpp:32-90 | Splitting a fill at one price leaves the books unchanged exactly when the first piece does not exceed the opposite open quantity |
| Positions.PositionManager.ClosePosition | quant1x/backtest/position.cpp:71-79 | The entry disappears and its whole profit is realized; nothing else changes |
| Positions.PositionManager.ReducePosition | quant1x/backtest/position.cpp:81-92 | The part sold is realized and the rest stays at its average; at or above the held quantity the position is closed |
| Positions.PositionManager.UpdateAccount | quant1x/backtest/position.cpp:113-127 | Every figure follows from initial capital, realized profit and the open positions, in whatever order they are visited |
| Positions.PositionManager.UpdatePositions | quant1x/backtest/position.cpp:130-141 | Only the unrealized profit of the code's own entry changes |
| Positions.PositionManager.ProcessTrade | quant1x/backtest/position.cpp:144-194 | The whole new state for accepted and rejected trades, including the entry of quantity zero that emplace keeps |
| Positions.AddedAverage | quant1x/backtest/position.cpp:63-69 | After adding, the average price still lies between the least and the greatest of the open trades' prices |
| Positions.StepHealthy | quant1x/backtest/position.cpp:144-194 | Trades keep every entry LONG, not negative and averaged between its trades' prices; positive trades keep every entry nonempty |
| Positions.StepBalanced | quant1x/backtest/position.cpp:113-194 | Every trade, accepted or not, keeps the account in agreement with the table of positions |
| Positions.MarkedBalanced | quant1x/backtest/position.cpp:130-141 | So does marking to the market |
| Positions.StepCash | quant1x/backtest/position.cpp:51-92 | Realized profit minus open cost moves exactly with the executed cash of the trade |
| Positions.SaleBooks | quant1x/backtest/position.cpp:71-93 | Closing books what an entry brings in over its cost to realized profit and current capital; reducing books it for the part sold and keeps the average |
| Positions.StepFloating | quant1x/backtest/position.cpp:113-127 | After every accepted trade the account's floating profit is the sum over the table |
| Positions.MarkedWorth | quant1x/backtest/position.cpp:130-141 | Marking makes a long entry's cost and floating profit add up to its quantity at the price, and changes nothing else in the table |
| Agreement.CashConserved | quant1x/backtest/position.cpp:144-194 | Over every run, realized profit minus open cost is executed sales minus executed purchases, those lost to an empty entry left out |
| Agreement.AccountBalances | quant1x/backtest/position.cpp:113-194 | Over every run from a fresh account it agrees with the table, and the available capital is what was paid in plus executed cash plus booked unrealized profit |
| Agreement.StepHoldings | quant1x/backtest/position.cpp:144-194 | An accepted trade keeps the holdings of both ledgers equal if and only if it is no purchase into an empty entry and its fill ends cleanly |
| Agreement.HoldingsAgreeExactly | quant1x/backtest/backtest.cpp:460-472 | Over a run of accepted trades the holdings agree throughout if and only if that holds for every trade |
| Agreement.LedgerGap | quant1x/backtest/stats.cpp:27-91 | Over any accepted run the two ledgers' profits less open cost differ by the lost purchases and the cost the EPS test dropped, and by nothing else |
| Agreement.LedgersAgree | quant1x/backtest/stats.cpp:27-91 | Without lost purchases and dropped rests, FIFO realized profit minus open cost equals average-cost realized profit minus open cost, so realized profits agree whenever everything is sold |
| Agreement.WholeSharesAgree | quant1x/backtest/stats.cpp:27-91 | That is so for all accepted trades of positive whole units above EPS |
| Agreement.ZeroPurchaseBlocks | quant1x/backtest/position.cpp:177-182 | The smallest failing run: after a purchase of zero units the manager holds nothing of a later purchase that the FIFO books record |
| Engine.BuyQuantityIsLots | quant1x/backtest/backtest.cpp:71-79 | A buy order is a positive multiple of 100 shares |
| Engine.BuyQuantityAffordable | quant1x/backtest/backtest.cpp:37-79 | It is the largest number of lots that a fifth of the available capital pays for at the close, except that one lot is always bought |
| Engine.SessionBalances | quant1x/backtest/backtest.cpp:106-114 | After every session from an initialised account, the account agrees with the open positions, and available capital is initial capital plus the cash of all trades plus booked unrealized profit |
| Engine.BacktestEngine.CreateOrder | quant1x/backtest/backtest.cpp:57-89 | Price with slippage, the lot rule for buys, the whole position for sales, rejection of a sale without position |
| Engine.OrderAsks | quant1x/backtest/backtest.cpp:57-89 | The price moves against the customer by the slippage; a purchase is for the affordable lots, anything else for all that is held; only selling without a holding is rejected |
| Engine.BacktestEngine.OnBar | quant1x/backtest/backtest.cpp:422-473 | One pass of the loop: mark to market, then at most one trade, booked by the manager |
| Engine.BuySignal | quant1x/backtest/backtest.cpp:422-473 | A LONG signal always appends one purchase, at the close plus slippage, of the lots that a fifth of the available capital pays for; the holding grows by it (unless the entry is empty), no other entry changes |
| Engine.SellSignal | quant1x/backtest/backtest.cpp:422-473 | A SHORT signal with a holding appends one sale of all of it, at the close less slippage, and removes the entry |
| Engine.QuietSignal | quant1x/backtest/backtest.cpp:425-449 | HOLD, FLAT, and SHORT without a holding leave trades, holdings and account alone and only mark the entry |
| Engine.SessionMarks | quant1x/backtest/backtest.cpp:425-473 | In every session an open entry's floating profit is that of what was held before the last bar of its code, at that bar's close |
| Engine.SessionFloats | quant1x/backtest/backtest.cpp:425-473 | In every session the account's floating profit is the table's as of the last trade |
| Engine.BacktestEngine.Run | quant1x/backtest/backtest.cpp:421-485 | The loop over all bars is the fold of its passes |
| Engine.TickInStep | quant1x/backtest/backtest.cpp:422-473 | Each pass keeps both ledgers at the same quantity and cost of every symbol and the same realized profit |
| Engine.EngineLedgersAgree | quant1x/backtest/backtest.cpp:421-485 | For every run of the engine, FIFO profit minus loss equals the account's realized profit, flat or not |
| Aggregation.MakeChunks | quant1x/data/adapter.rs:268-277 | The loop builds the chunks that the partition law is about |
| Aggregation.ChunksPartition | quant1x/cache.cpp:281-300 | Every instrument lies in exactly one chunk |
| Aggregation.ChunksEven | quant1x/cache.cpp:281-300 | At most one chunk a thread, in order, without gaps, all as long as the first except perhaps the last, none longer than a fair share rounded up |
| Aggregation.SortUnique | quant1x/data/adapter.rs:317-323 | A sorted permutation of rows with increasing keys is unique |
| Aggregation.OutputDetermined | quant1x/data/adapter.rs:312-326 | If every instrument was handled once, the table is the header and the nonempty rows in instrument order, whatever the order of handling |
| Semaphore.Reachable | quant1x/data/adapter.rs:173-219 | In every reachable state the counter is the number of live guards, at most max, and if a thread is parked the counter plus the woken threads reach max |
| Semaphore.NobodyStranded | quant1x/data/adapter.rs:188-200 | A parked thread always has a guard holder who will notify, or a woken thread with a free permit |
| FanOut.Reachable | quant1x/data/adapter.rs:271-305 | Every reachable state keeps the invariant: each instrument is handled once or still ahead of exactly one thread, and the rows are those of the handled ones |
| FanOut.ProgressDecreases | quant1x/data/adapter.rs:283-303 | Every step but a spurious wakeup lowers the remaining effort |
| FanOut.NoDeadlock | quant1x/data/adapter.rs:283-310 | While an instrument is left, some thread can take a step |
| FanOut.FanOutResult | quant1x/data/adapter.rs:268-326 | After joining, every instrument was handled once and the table is the same for every schedule, thread count and semaphore size |
| FanOut.StuckMeansFinished | quant1x/data/adapter.rs:283-310 | A run in which nobody can move has finished |
| FanOut.RunsEnd | quant1x/data/adapter.rs:283-310 | A run without spurious wakeups has no more steps than the effort of its start |
| TaskQueue.Reachable | quant1x/cache.cpp:280-342 | Every reachable state keeps the invariant; the number of workers is the smaller of requested threads and default maximum, at least one, so they never outnumber the result slots |
| TaskQueue.IdleMeans | quant1x/cache.cpp:306-342 | In every run a worker sleeps only while no task is left and before everybody was woken, and exits only when no task is left and none will come |
| TaskQueue.AwakeMoves | quant1x/cache.cpp:306-337 | A worker that is awake can always go on, and one that has exited never comes back |
| TaskQueue.ProgressDecreases | quant1x/cache.cpp:306-337 | Every step but a spurious wakeup lowers the remaining effort |
| TaskQueue.NoDeadlock | quant1x/cache.cpp:306-342 | Until all workers have exited, somebody awake can take a step: no wakeup is lost |
| TaskQueue.QueueResult | quant1x/cache.cpp:280-381 | When all workers have exited, every instrument was handled once, result indices were in bounds, and the table does not depend on schedule or worker count |
| TaskQueue.RunsEnd | quant1x/cache.cpp:306-342 | A run without spurious wakeups has no more steps than the effort of its start |
| Singleton.StepInv | quant1x/base/singleton.py:109-185 | Every step of every thread keeps the lock ownership, the table and the creation state consistent, and never replaces the table's entry |
| Singleton.Reachable | quant1x/base/singleton.py:109-185 | So does every run; an entry once published stays |
| Singleton.OneInstance | quant1x/base/singleton.py:161-185 | All calls that return, under any of the four strategies, at any time and by any path, return the same object |
| Singleton.AtMostOneConstruction | quant1x/base/singleton.py:109-148 | Under LOCK, DOUBLE_CHECKED and CLASS_LOCK at most one construction succeeds, however many raised before |
| Singleton.NoSpuriousErrors | quant1x/base/singleton.py:111-148 | No read of the table fails and the circular-dependency error is never raised by concurrency |
| Singleton.NoDeadlock | quant1x/base/singleton.py:109-185 | While a call is under way, some thread can move |
| SingletonCalls.LoneCall | quant1x/base/singleton.py:109-185 | A call with nobody else under way returns the published object, or constructs, publishes and returns one; if the constructor raises, the call raises and everything is as before |
| SingletonCalls.RaisesForItself | quant1x/base/singleton.py:109-185 | In every run, under every strategy, a call raises only if its own abstract-method check or constructor did |
| NumberRange.NumberRange.AddRange | quant1x/base/numeric.py:139-155 | Refuses a reversed range, and otherwise leaves the merged list with its index of starts in step |
| NumberRange.NumberRange.MergeRanges | quant1x/base/numeric.py:171-197 | The loop computes the left-to-right merge and its starts |
| NumberRange.NumberRange.In | quant1x/base/numeric.py:199-231 | The binary search finds a value exactly when some range of the list contains it |
| NumberRange.AddedOrdered | quant1x/base/numeric.py:139-197 | For all flags, the list stays sorted, of nonempty ranges, and disjoint with gaps |
| NumberRange.AddedCovers | quant1x/base/numeric.py:139-197 | With one style of flags, adding covers exactly the old numbers and the new range |
| NumberRange.BuiltIsUnion | quant1x/base/numeric.py:139-231 | After any sequence of additions in one style, membership is the plain union of everything added |
| NumberRange.Canonical | quant1x/base/numeric.py:157-197 | Two gap-separated lists of one style that cover the same numbers are the same list |
| NumberRange.OrderIrrelevant | quant1x/base/numeric.py:139-197 | The final list is the same for every order of the additions |
| NumberRangeExactness.MergeExact | quant1x/base/numeric.py:176-197 | Merging one range into the separated ones behind it is exact if and only if it fits each of them |
| NumberRangeExactness.AddedExact | quant1x/base/numeric.py:139-197 | For all flags, add_range keeps exactly the union if and only if the new range is compatible with every range of the list: touching points included by a side, shared ends kept by the earlier one |
| NumberRangeExactness.UnionExactly | quant1x/base/numeric.py:139-231 | Over any calls, membership is the union throughout if and only if every call is compatible with the list it meets |
| NumberRangeExactness.OpenRangesTouch | quant1x/base/numeric.py:183-188 | The smallest failing run: two open ranges that touch become one that covers the point between them |
| RingBuffer.SeenFree | quant1x/runtime/ringbuffer.h:408-412 | With two or more slots, a slot carrying the producer's position is uninitialised and free for it, unless the position is already claimed |
| RingBuffer.SeenFilled | quant1x/runtime/ringbuffer.h:251-255 | With two or more slots, a slot carrying the consumer's next number serves exactly that position |
| RingBuffer.StepInv | quant1x/runtime/ringbuffer.h:196-282 | Every step of every thread keeps the assignment of slots to positions and of positions to threads |
| RingBuffer.Reachable | quant1x/runtime/ringbuffer.h:388-489 | So does every run |
| RingBuffer.SafeFromTwoSlots | quant1x/runtime/ringbuffer.h:123-489 | In all runs no element is overwritten, read from nothing or taken twice, at most the capacity is claimed and not taken, and position p yields what position p received, if and only if there are at least two slots |
| RingBuffer.OneSlotOverwrites | quant1x/runtime/ringbuffer.h:123-128 | With one slot, one thread pushing twice is about to construct its second element over the first |
| RingBuffer.FullMeans | quant1x/runtime/ringbuffer.h:427-429 | A push that answers "full" saw a full queue, or a pop of the slot's previous element still under way |
| RingBuffer.EmptyMeans | quant1x/runtime/ringbuffer.rs:179-186 | A pop that finds nothing saw an empty queue, or the push of the oldest element still under way |
| RingBuffer.RetryMeansOvertaken | quant1x/runtime/ringbuffer.h:404-434 | A call goes round again only because another thread has claimed its position, or a weak exchange failed for no reason |
| RingBuffer.QuietIsList | quant1x/runtime/ringbuffer.h:196-282 | Between operations the queue is a list: everything claimed before the consumers' cursor was taken once, the rest lies in order, and a lone push or pop is refused exactly when it is full or empty |
| RingBufferAnswers.PushRefused | quant1x/runtime/ringbuffer.h:400-434 | A push is refused only where there is no room, or, for a try, after losing its position twice or a weak exchange that failed |
| RingBufferAnswers.PopRefused | quant1x/runtime/ringbuffer.h:240-282 | A pop is refused only where nothing is there and it does not wait, where it waits but the queue is closed, or, for a try, after losing twice; so a blocking pop never fails on an open queue |
| RingBufferAnswers.ClosedExactly | quant1x/runtime/ringbuffer.h:285-291 | In every run the queue is closed exactly when some thread has closed it before |
| RingBufferAnswers.ClosedPopEnds | quant1x/runtime/ringbuffer.h:266-275 | Once it is closed, a waiting pop that meets an empty queue goes on to ask, and then gives up |
| RingBufferAnswers.LonePush | quant1x/runtime/ringbuffer.h:196-282 | Between operations a push appends its element, or is refused, exactly when the queue is full |
| RingBufferAnswers.LonePop | quant1x/runtime/ringbuffer.h:196-282 | Between operations a pop takes the oldest element; on an empty queue it is refused, or starts again if it waits and the queue is open |
| RingBuffer.MaskIsRemainder | quant1x/runtime/ringbuffer.h:251-252 | Masking a position is taking its remainder by the capacity |
| RingBuffer.RoundCapacity | quant1x/runtime/ringbuffer.h:349-363 | The capacity is the least power of two that suffices, 1 only for 1, and wraps to 0 above the largest one |
| PowerOfTwo.SmearStep | quant1x/base/bits.h:35-38 | Oring in the word shifted by the span doubles the span of bits below each set one |
| PowerOfTwo.SmearedIsOnes | quant1x/base/bits.h:35-38 | Once the span reaches the width, all bits below the top one are set |
| PowerOfTwo.RoundUpLoop | quant1x/base/bits.h:24-49 | The result is the least power of two at or above the input, 1 for 0, and the largest power of the word where that does not fit |
| PowerOfTwo.SingleBit | quant1x/base/bits.go:23-42 | x & (x - 1) vanishes exactly on powers of two |
| PowerOfTwo.RoundUpEarlyExit | quant1x/base/bits.go:23-42 | The early-exit form meets the same contract |
| PowerOfTwo.Propagate | quant1x/base/bits.rs:26-35 | A wrapping shift widens the span until the word is covered, and then does nothing |
| PowerOfTwo.RoundUpUnrolled | quant1x/base/bits.rs:18-46 | The unrolled form meets the same contract for widths 8, 16, 32, 64 and 128 |
| PowerOfTwo.ByLengthRoundsUp | quant1x/base/bits.py:19-53 | The bit-length form meets it for every integer, however large |
| PowerOfTwo.FormsAgree | quant1x/base/bits.py:19-53 | The contract has exactly one answer, so all four forms agree |
| ByteStream.LeRoundTrip | quant1x/base/buffer.h:22-47 | Little-endian bytes of a number that fits decode to the number |
| ByteStream.LeAt | quant1x/base/buffer.h:28-30 | Byte i of the encoding is the number shifted right by 8 i bits, as the loop stores it |
| ByteStream.BinaryStream.PrepareWrite | quant1x/base/buffer.h:50-58 | Fails exactly on overflow of the offset; otherwise grows the buffer with zeros as far as needed |
| ByteStream.BinaryStream.PushLe | quant1x/base/buffer.h:22-32 | The byte loop writes the little-endian encoding at the offset and keeps everything around it |
| ByteStream.BinaryStream.GetLe | quant1x/base/buffer.h:34-47 | The byte loop decodes the bytes at the offset and steps over them; too little data leaves the offset alone |
| ByteStream.BinaryStream.PushText | quant1x/base/buffer.h:212-215 | Writes the length as 32 bits and then the text; on overflow says what was already written |
| ByteStream.BinaryStream.GetText | quant1x/base/buffer.h:217-223 | Reads length and text; a length beyond the data fails with the length consumed |
| ByteStream.BinaryStream.VarintDecode | quant1x/base/buffer.h:250-289 | The loop decodes the varint at the offset; a truncated one leaves the offset alone |
| ByteStream.VarintRoundTrip | quant1x/base/buffer.rs:183-218 | Decoding the encoding of any v with absolute value at most 2^63 - 1, anywhere in a buffer, returns v and stops right behind it, after 1 to 10 bytes |
| ByteStream.VarintTruncated | quant1x/base/buffer.rs:196-202 | An encoding cut short anywhere is rejected |
| ByteStream.VarintMeans | quant1x/base/buffer.h:250-289 | For any bytes: the varint ends with the first byte without continuation bit or with the tenth, fails exactly when the buffer ends before, and its magnitude is what its groups stand for in 64 bits, clamped to 2^63 - 1 |
| ByteStream.TextReadExactly | quant1x/base/buffer.h:217-223 | Reading a text succeeds exactly where the encoding of a text stands in the buffer, with that text and the position behind it |
| ByteStream.TextTruncated | quant1x/base/buffer.h:217-223 | A text cut short anywhere is rejected |
| ByteStream.ItemRoundTrip | quant1x/base/buffer.rs:43-169 | An item found in a buffer in encoded form reads back as itself |
| ByteStream.StreamRoundTrip | quant1x/base/buffer.rs:43-169 | Writing any list of integers of mixed widths and signs and length-prefixed strings, going back, and reading the same types returns the list and stops at the same place |
| ByteStream.TextIsOneWrite | quant1x/base/buffer.h:212-215 | The two writes of a text push are one write of its encoding |
| Welford.WelfordStdDev.Update | quant1x/base/algo.h:19-49 | The new fields are the update formula applied to the old ones |
| Welford.WelfordStdDev.Combine | quant1x/base/algo.h:77-98 | The new fields are the merge formula applied to the old ones, also when merging an accumulator with itself |
| Welford.CombinedIsExact | quant1x/base/algo.h:77-98 | Merging the accumulators of two samples gives the mean and squared deviations of one followed by the other |
| Welford.UpdatedIsExact | quant1x/base/algo.h:19-49 | Updating the accumulator of a sample gives that of the sample with the value appended |
| Welford.UpdateIsMerge | quant1x/base/algo.h:35-47 | An update is a merge with the accumulator of one value |
| Welford.PlanIsExact | quant1x/base/algo.h:76-98 | Any tree of updates and merges holds the mean and squared deviations of all its values |
| Welford.OneAnswer | quant1x/base/algo.h:76-98 | However the same values are ordered, split and merged, the result is the same |
| Welford.SpreadVanishes | quant1x/base/algo.h:57-64 | The squared deviations are never negative and vanish exactly when all values agree |
| Welford.GettersReport | quant1x/base/algo.h:52-64 | After any plan the getters return the mean and the population and sample variances of its values, or nothing when there are too few |
| RollingStd.RollingStd | quant1x/formula.h:602-616 | Each full window of a positive period gets its variance, everything else stays NaN |
| RollingStd.RollingStdOptimized | quant1x/formula.h:624-658 | The same for every period above 1, from two sliding sums |
| RollingStd.Slid | quant1x/formula.h:647-650 | Adding the new and subtracting the oldest value keeps the sums those of the window |
| RollingStd.RadicandIsVariance | quant1x/formula.h:643-654 | The radicand from the running sums is the population variance of the window |
| RollingStd.Variance | quant1x/formula.h:611-654 | The radicand is never negative |
| RollingStd.FormsAgree | quant1x/formula.h:602-658 | The results of the two methods are the same if and only if the period is not 1 or there are no data |
| RollingStd.PeriodOne | quant1x/formula.h:607-612 | For period 1 the plain form answers 0 everywhere |
| RollingStd.ZeroEntry | quant1x/formula.h:642-655 | An entry is 0 exactly when all values of its window agree |

## Left out

- Cron.Next: for hand-made tables that reach beyond the calendar (an hour 24, say) only that the search ends and returns matches is stated, not that they are the least ones.
- CronGrammar.FieldRoundTrip: names glued to digits or to each other are substituted like any text; for them only `CronGrammar.AcceptedExactly` speaks. Name tables are of three-letter names, as the built-in ones.
- Cron: daylight-saving zones, years before 1 of the Gregorian calendar as Go prints them, steps so large that `i += delta` overflows, non-ASCII white space and case mapping.
- Calendar: Go's `time` package is not part of the repository; its fields and `time.Date` are modelled from the proleptic Gregorian calendar.
- Agreement.HoldingsAgreeExactly: covers LONG and SHORT trades with quantities that are not negative; FLAT trades are ignored by the statistics.
- Positions.PositionManager.ProcessTrade: requires only that a purchase does not cancel a negative entry to exactly zero, where the average would divide by zero; the resulting NaN or infinity is not modelled.
- Positions.PositionManager.UpdatePositions: the loop over the table that skips other codes is modelled as one lookup.
- Engine.BacktestEngine.CreateOrder: a rejected order carries its direction and zeros, where the source leaves these fields unset; nothing reads them.
- Engine.BacktestEngine.OnBar: requires a close other than zero, and the cast of the share count to a 32-bit int is unbounded.
- Engine: order and trade ids, times, fees (computed, never charged), daily status, equity curve, date filter, final report and its annualised figures, Sharpe ratio and drawdown.
- Positions: `reduceOrReversePosition`, which nothing calls, and the floating-profit getters.
- Rounding, NaN and infinity of doubles in ledgers, moments and rolling sums: arithmetic is exact.
- NumberRange: string end points, parsing of range texts and the constructor's argument forms.
- Aggregation.OutputDetermined: requires distinct symbols; with duplicates the order table keeps the last index and equal keys may come out in any order.
- FanOut: panics inside an update (the thread's remaining chunk is then lost), cloning of guards, progress bars and CSV writing.
- TaskQueue: an exception in an update counts as a handled instrument without a row, as the code does; file writing and base-data adapters are not modelled.
- Semaphore.NobodyStranded: progress is stated as somebody being able to move; no fairness of the scheduler is assumed or claimed.
- Singleton: `reset_instance`, THREAD_LOCAL and EAGER modes, a constructor that asks for its own class, and several classes sharing one lock.
- ByteStream.BinaryStream.GetText: the Rust version also rejects text that is not UTF-8; the bytes are left uninterpreted here.
- ByteStream: floats, fixed arrays, `get_string`, skipping and seeking, and offsets beyond `usize` in the Rust version, which panics where the C++ one throws.
- Welford.WelfordStdDev.Update: the count is unbounded, not a 32-bit int; square roots are left out.
- RollingStd: entries are the radicands, since the same square root is applied to both forms.
- PowerOfTwo.RoundUpUnrolled: only the five widths the macro is used with; the other forms are proved for every width.
- `bars_last`, `bars_lasts` and the remaining formulas, plugin registry, file names, configuration, network and Windows service code: they would only add easy members.
- RingBuffer.SafeFromTwoSlots: accesses are interleaved in one order; weaker memory orders, positions that wrap around the word, and destruction are not modelled.
- RingBuffer: the Go port, which checks the closed flag before a write, the Python port, which holds a lock, and back-off times.
