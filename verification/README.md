# Verified model of the trading bot's record-keeping core

This project models, in Dafny, the parts of the bot whose correctness lies in what they keep over whole runs, and proves
those claims for all inputs, all crash points and all answers of the exchange.

* **Forward-paper lifecycle** (`Paper*.dfy`, `HashChain.dfy`). A paper trade exists only as events in an append-only,
  hash-chained, idempotent log, and its state is rebuilt by folding that log. `PaperLifecycle` has the fold and, as a
  list of attempted appends, one market update; `PaperProtocol`, `PaperCrashes` and `PaperGuarantees` say what every
  prefix of such an update leaves behind; `PaperReplay`, `PaperRestart` and `PaperRecovery` hold restarts and what a crash
  costs, `PaperKeys` and `PaperConflicts` conflict freedom, `PaperQuantities` conservation and which settings keep it,
  `PaperAccounting` profit and loss. `PaperTriggers` says in candle prices what sets each step off and in numbers what it
  writes, `PaperMirror` that longs and shorts are mirror images. `PaperStore` has the store class and its strict reader,
  `PaperBook` and `PaperWorld` many trades in one log, `PaperOutcomes` the outcome report. `PaperService` is the
  imperative service: a mutable in-memory trade, one store append after another, and a process that may die before any of
  them; its methods are proved to be runs of that specification. `PaperScan` says what a scan does to the book, in the
  candles and plans it gets.
* **Candle engine** (`CandleEngine.dfy`, `CandleLaws.dfy`, `CandleBuckets.dfy`): validated gap-free series, their
  aggregation, and every candle of an aggregate over the series it comes from.
* **Exchange reconciliation** (`PositionRecords.dfy`, `PositionTriggers.dfy`, `ExchangeOracle.dfy`,
  `PositionLifecycle.dfy`, `PositionManager.dfy`): one pass of the position manager against an exchange any call of which
  may fail, and when each of its steps is due, in prices.
* **Funnel log** (`FunnelTelemetry.dfy`, `FunnelAnalysis.dfy`): the incrementally indexed writer and the report's chain
  validator, and exactly when the two agree.
* **Trade simulator**, **archive rotation** and **rate limiter** (`TradeSimulation.dfy`, `CsvRotation.dfy`,
  `RateLimiter.dfy`).

Prices, sizes and seconds are exact reals, timestamps are integers. The SHA-256 content hash is an arbitrary function: the
tamper-evidence lemmas hand back a collision instead of assuming there is none. Clocks, market data, plans, exchange
answers and strategy verdicts are parameters or come from an oracle. `dafny verify dfyconfig.toml` checks everything.

## Findings

Places where the code does less, or more, than its documentation or its own reader promises. Each is an exact condition
below, with an input that shows it.

* `docs/CANDIDATE_LIFECYCLE.md:19` says that after a restart the first missing step is resumed. The steps it lists
  are touch, partial exit, exit reason and close; it does not name the two stop moves, and they are not resumed: replay
  takes the TP1 partial, or `PROFIT_LOCK_ACTIVATED`, for the whole step. A crash between that event and its
  `STOP_UPDATED` loses the move for good, and no other crash point of the update does (`PaperRecovery.StillMovesIff`,
  `PaperRecovery.CrashLosesBreakEven`, `PaperRecovery.CrashLosesProfitLock`; trades in `PaperRecovery.BreakEvenLost` and
  `PaperRecovery.ProfitLockLost`).
* The exit reason, which it does list, is not always the one that was due. After a crash past the partial that takes
  all that is left, the next update scans the targets from the first and closes at the lowest that is completed, touched
  or hit, if it does not stop out. The due label and price are written if and only if the replayed stop is not hit and no
  earlier target is completed, touched or hit (`PaperRestart.ExitLabelIff`, `PaperRestart.RestartAfterLastPartial`; a
  trade in `PaperRestart.ExitLabelLost`). With nothing at all left, gross, fees and net are the same
  either way (`PaperAccounting.RecoveryPathsAgree`).
* A process that restarts on the candle it died on starts over with the stop check. Where it died on arrival at a target
  or between a touch and its partial, it attempts what the dead one had left if and only if the replayed stop is not hit
  (`PaperReplay.RestartResumes`, `PaperReplay.TouchBoundary`); in `PaperRecovery.RestartStopsOut` the live update takes
  TP2 and the restarted one stops out. Among the observations a crash costs nothing (`PaperRestart.RestartInObservations`);
  between the TP1 partial and its stop update it costs the move, and nothing else while something is left
  (`PaperRestart.RestartWithoutBreakEven`); once the profit lock is armed only the stop check is repeated
  (`PaperRestart.RestartAfterLock`); once a stop touch or an exit reason is persisted, the due close follows
  (`PaperGuarantees.PendingCompletes`).
* With a TP1 share of zero or less, arming break-even is retried with another mark price and the store raises; with a
  positive share no retry ever conflicts (`PaperConflicts.ConflictFreeIff`, `PaperConflicts.ConflictingRun`).
* The settings accept negative shares for TP1 and TP2. A negative share is given back in memory and no event records it,
  so that a later exit takes more than was opened. No run does if and only if neither share is negative
  (`PaperQuantities.NeverOverdrawsIff`, `PaperQuantities.NegativeFirstShareOverdraws`,
  `PaperQuantities.NegativeSecondShareOverdraws`).
* The fragment counter of the data-quality report does not see a trade that crashed right after its stop touch, although
  a terminal intent is pending (`PaperOutcomes.FragmentedIff`, `PaperOutcomes.PendingNotCounted`).
* The writer of the event store does not look for a second `TRADE_CLOSED` under another key, the reader rejects it
  (`PaperStore.WriteAcceptedIff`, `PaperStore.SecondCloseIsWritten`); the keys the service uses rule it out.
* The check of critical fields tests the size for zero and not for its sign: a plan with a negative notional opens a
  trade of negative size (`PaperPlanning.CriticalCheckIsValid`, `PaperPlanning.NegativeNotionalPasses`).
* The funnel writer accepts `OUTCOME_LINK`, the report does not know it: linking one paper outcome makes the report reject
  the whole structured log from then on (`FunnelAnalysis.ReportReadsWriterIff`, `FunnelAnalysis.LinkedLogIsRejected`).
* The report tests that the fields of a record are present, the writer's reader that they are not empty: it rejects a log
  the report trusts if and only if a field is empty (`FunnelAnalysis.TrustedIff`, `FunnelAnalysis.BlankIsTrusted`).
* A funnel store that has read good lines and then a bad one in one go is ahead of its offset, and stays so: it rejects
  every longer valid log, also once the tail is repaired in place, until the index is reset; and what it writes to a file
  cut back to the offset breaks the chain. Where the first unread line is the bad
  one, a repaired tail is accepted (`FunnelTelemetry.FunnelEventStore.SyncIndex`,
  `FunnelTelemetry.FunnelEventStore.Append`, `FunnelTelemetry.RepairedTailStaysRejected`).
* Aggregating a series that is not aligned to its own interval puts candles into a bucket that close after the bucket
  has ended (`CandleLaws.NoLookAheadIff`, `CandleLaws.LookAhead`).
* The backtest books -1 R for every stop: also for one that had been moved to the entry, and for one on the winning side
  of the entry (`TradeSimulation.StopBooksItsPriceIff`, `TradeSimulation.MovedStopBooksFullLoss`,
  `TradeSimulation.WinningStopBooksLoss`).
* A protective stop move that the exchange grants but does not confirm leaves the old local stop in the record
  (`PositionLifecycle.UnconfirmedStopIff`, `PositionLifecycle.UnconfirmedMove`), and a move that fails after its
  cancellations leaves no stop order behind (`PositionLifecycle.ProtectLeavesNoStopIff`,
  `PositionLifecycle.AbandonedMove`).

A remark without a lemma: `docs/FORWARD_PAPER_OBSERVABILITY.md` speaks of schema 1; the code writes schema 2, which is
what is modelled.

## Model

| member | source | states |
|---|---|---|
| HashChain.SameHeadSameLog | forward_paper/store.py:93-101 | Two non-empty chains that end in the same hash are the same sequence, or exhibit a hash collision: no edit, deletion, insertion or reordering keeps the head hash |
| HashChain.InjectiveHashSameLog | forward_paper/store.py:93-101 | Where no collision occurs, equal heads and equal logs are the same thing |
| HashChain.ChainedAppend | forward_paper/store.py:157-171 | A record continues a chain exactly when it carries the next sequence number, the head hash and its own hash |
| PaperStore.StoreTamperEvident | forward_paper/store.py:70-121 | Two files the strict reader accepts and that share their final event hash are identical, up to a collision |
| PaperStore.EventStore.ReadUnlocked | forward_paper/store.py:70-121 | The single scan accepts exactly the files every line of which may follow the lines before it, and reports the first fault otherwise |
| PaperStore.AcceptedIff | forward_paper/store.py:70-121 | The strict reader accepts a file if and only if every record has the dataset, a known schema and the fields it demands, continues the chain from `GENESIS`, and shares neither a key nor a closed trade with a record before it |
| PaperStore.FaultIsFirstBroken | forward_paper/store.py:87-117 | The fault of a line is the first rule it breaks, in the order of the tests, and a line without one breaks none |
| PaperStore.EventStore.Append | forward_paper/store.py:127-176 | The answer of the writer in every case, a corrupt file with its first fault, and the new file: unchanged, or extended by one record whose every field is stated |
| PaperStore.DecideIff | forward_paper/store.py:127-155 | Each answer, in terms of the lines already there: same id, same key with the same or another payload, an opening of the same candidate, an empty field, another dataset |
| PaperStore.SameKeyIff | forward_paper/store.py:37-60 | Two events share a semantic key if and only if they are the same transition of the same trade; observations only with an exact replay |
| PaperStore.WriteAcceptedIff | forward_paper/store.py:109-115 | The reader still accepts after a write if and only if it was not a second terminal close under a new key |
| PaperStore.SecondCloseIsWritten | forward_paper/store.py:109-115 | A file and a draft for which it was |
| PaperStore.WriteHealthy | forward_paper/service.py:383-390 | Appends with semantic transition keys always leave a file the reader accepts |
| PaperStore.WriterReaderAgreement | forward_paper/store.py:70-176 | Over any sequence of service appends: the reader accepts the result, the old file is a prefix of it, it grows by at most one event per append, and no candidate is opened twice |
| PaperStore.RetryIsIdempotent | forward_paper/store.py:136-147 | A retry of a persisted transition changes nothing, at any later time |
| PaperProtocol.LegalKeyFacts | forward_paper/service.py:322-381 | In every log built by admissible steps, the replayed flags tell exactly which touches, partials and terminal events are persisted |
| PaperProtocol.LegalIntentFacts | forward_paper/service.py:357-366 | A persisted exit reason is the pending terminal state: same reason, price and time |
| PaperProtocol.LegalQuantityFacts | forward_paper/service.py:345-379 | Opened equals exited plus remaining while open; once closed the difference is between 0 and the tolerance |
| PaperProtocol.LegalStopFacts | forward_paper/service.py:280-294 | The replayed stop is the initial one until a stop update is persisted, then the fee break-even |
| PaperProtocol.ClosedIsLast | forward_paper/service.py:375-379 | `TRADE_CLOSED` is the last event of its trade |
| PaperCrashes.GoodPrefixLegal | forward_paper/service.py:213-294 | Whatever prefix of good attempts gets through before a crash, none conflicts and the log stays legal |
| PaperCrashes.ObservationsPlay | forward_paper/service.py:237-246 | Mark and excursion events never conflict, and memory equals the fold after them |
| PaperCrashes.ClosePlays | forward_paper/service.py:309-320 | Closing from any persisted state ends the trade, whether or not the exit reason was already there |
| PaperCrashes.StopPlays | forward_paper/service.py:248-252 | The stop path closes the trade without conflict |
| PaperCrashes.PartialPlays | forward_paper/service.py:269-279 | A target closes between nothing and everything that remains, and replay takes off exactly that |
| PaperCrashes.BreakEvenPlays | forward_paper/service.py:280-284 | Arming break-even and moving the stop go through and leave the stop in the fold |
| PaperCrashes.TargetsPlay | forward_paper/service.py:254-294 | From any target on, every attempt of the loop and of the profit lock is admissible or a repeat |
| PaperCrashes.ProgramPlays | forward_paper/service.py:213-294 | The same for a whole market update from any reachable state |
| PaperGuarantees.RunLegal | forward_paper/service.py:172-180 | Every run of updates, each dying after any number of appends, is free of conflicts and keeps the log legal |
| PaperQuantities.RunConserves | forward_paper/service.py:345-379 | Quantity conservation over every run, conflicts included, when no share is negative |
| PaperGuarantees.PendingCompletes | forward_paper/service.py:227-236 | After a persisted terminal intent the only further events, for any candles and crashes, are the exit and close that were due; one update that survives two appends brings them all |
| PaperGuarantees.StopTouchDecides | forward_paper/service.py:309-320 | After a stop touch nothing but the due exit and close can follow: at the stop price, for the whole remaining size, at the time of the touch |
| PaperGuarantees.AdvanceStopped | forward_paper/service.py:227-236 | What one update appends when the stop touch is persisted but not the exit reason, for every crash point |
| PaperGuarantees.AdvanceExited | forward_paper/service.py:227-236 | The same when the exit reason is persisted too: the close, or nothing |
| PaperTriggers.StopTakenIff | forward_paper/service.py:248-252 | In every legal open log with no exit pending, an update takes the stop if and only if the candle trades there: a long by its low, a short by its high, the mark where there is no candle |
| PaperTriggers.TargetTouchedIff | forward_paper/service.py:254-268 | A target is newly touched if and only if the stop is not taken, no exit was made at an earlier target, and the candle trades at its price |
| PaperTriggers.PartialTakenIff | forward_paper/service.py:269-279 | A touched target takes a partial if and only if moreover something remains and its share is not zero |
| PaperTriggers.PartialSizeInNumbers | forward_paper/service.py:269-276 | In every legal log the size of a partial is its percentage of the opened size or, at the last target and where less is left, all that the partials before it left |
| PaperTriggers.TargetExitIff | forward_paper/service.py:256-287 | The trade closes at a target if and only if it is touched, nothing closed it before, and what the update takes up to that target leaves at most 1e-12 |
| PaperTriggers.BreakEvenMovesIff | forward_paper/service.py:276-284 | Break-even is armed and moved to if and only if the first of several targets is touched, without a partial before, and its share leaves something |
| PaperTriggers.ProfitLocksIff | forward_paper/service.py:286-294 | The lock is armed if and only if nothing was ever touched and the best price covers the configured fraction of the way to the first target |
| PaperTriggers.ExcursionsInNumbers | forward_paper/service.py:214-246 | The excursions after an update are the extremes of those before and of the candle, in percent of the fill, for both directions |
| PaperTriggers.ExcursionsOfLog | forward_paper/service.py:330-370 | The replayed excursions of any log are the extremes of its updates and of zero |
| PaperTriggers.FinalReasonIsLast | forward_paper/service.py:375-379 | The final reason of a replayed trade is that of its close, and an open one has none |
| PaperTriggers.AttemptsInNumbers | forward_paper/service.py:213-320 | Every price, mark, percentage, gross, fee, size and stop an update writes, as numbers over the candle, the opening and the settings |
| PaperTriggers.CloseInNumbers | forward_paper/service.py:248-320 | An update closes the trade if and only if the stop or a target exit is taken; the close is the last event, at the stop for all that remained or at the target for nothing more |
| PaperTriggers.StopInNumbers | forward_paper/service.py:398-400 | In every legal log a moved stop is the fill plus the buffer in percent, minus it for a short; an unmoved one is the initial stop |
| PaperTriggers.PendingInNumbers | forward_paper/service.py:227-236 | With an exit pending an update writes that exit and the close of the size it was written with, gross and fee in numbers |
| PaperMirror.MirrorProgram | forward_paper/service.py:213-294 | Reflect trade and candle about the fill and exchange the directions: the update attempts the reflected events |
| PaperMirror.RunsMirror | forward_paper/service.py:172-294 | The same for every run of updates and crashes: the reflected log, with the same conflicts |
| PaperMirror.MirroredResult | forward_paper/service.py:296-320 | Mirror images earn the same gross; their fees differ by the round-trip rate on what the exits gained in price |
| PaperReplay.ReplayRefinesLive | forward_paper/service.py:254-287 | When an update arrives at a target, its memory agrees with the fold of what is persisted, and what it still attempts is what the replayed state calls for from that target on |
| PaperReplay.RescanSkips | forward_paper/service.py:256-274 | An update that starts over attempts nothing for the targets the dead one had passed |
| PaperReplay.RestartResumes | forward_paper/service.py:213-294 | A process that dies on arrival at a target and re-reads the log attempts its mark and then the live remainder if the replayed stop is not hit, the stop-out if it is; hit it can only be at a break-even moved in this update |
| PaperReplay.TouchBoundary | forward_paper/service.py:261-268 | The same for a process that dies between a touch and its partial |
| PaperRestart.RestartInObservations | forward_paper/service.py:237-246 | A process that dies among the observations attempts, on the same tick, everything that follows them |
| PaperRestart.RestartWithoutBreakEven | forward_paper/service.py:276-284 | One that dies between the TP1 partial and its stop update attempts the rest of the live update, without the move |
| PaperRestart.RestartAfterLock | forward_paper/service.py:286-294 | One that dies after the profit lock is armed only checks the stop again |
| PaperRestart.SettledProgram | forward_paper/service.py:248-287 | An update of a trade with nothing left and no exit reason stops out, or closes at the lowest target completed, touched or hit |
| PaperRestart.ExitLabelIff | forward_paper/service.py:256-260 | It writes the exit of a completed target if and only if the replayed stop is not hit and no earlier target is completed, touched or hit |
| PaperRestart.RestartAfterLastPartial | forward_paper/service.py:269-287 | Every crash after the partial that takes all that is left: the due exit, and when a restart on any tick writes it |
| PaperRestart.ExitLabelLost | forward_paper/service.py:256-287 | A trade and a candle through both targets: TP2 was due, the restart closes at TP1 |
| PaperReplay.AgreeingStatesActAlike | forward_paper/service.py:254-294 | States that agree from a target on attempt the same appends |
| PaperRecovery.StillMovesIff | forward_paper/service.py:256-294 | Some later run makes a stop move if and only if the replayed state awaits it: open, no terminal intent, and for break-even TP1 not completed and leaving something, for the lock not armed, nothing touched, TP1 off the fill and room between stop and targets |
| PaperRecovery.NeverMoves | forward_paper/service.py:256-294 | Once the replayed state awaits no move, no run makes it |
| PaperRecovery.CrashLosesBreakEven | forward_paper/service.py:276-284 | An update that would move the stop to break-even loses the move exactly at the two crash points after its TP1 partial and before its stop update |
| PaperRecovery.CrashLosesProfitLock | forward_paper/service.py:286-294 | An update that would lock profit loses the move exactly at the crash point after `PROFIT_LOCK_ACTIVATED` |
| PaperRecovery.BreakEvenLost | forward_paper/service.py:276-284 | A trade and a candle for the first |
| PaperRecovery.ProfitLockLost | forward_paper/service.py:286-294 | A trade and a candle for the second |
| PaperRecovery.RestartStopsOut | forward_paper/service.py:248-287 | A trade and a candle on which the live update takes TP2 and a restart after TP1 stops out |
| PaperKeys.RunNeverConflicts | forward_paper/store.py:138-150 | With a positive TP1 share no run conflicts, whatever the other settings: from the persisted keys alone |
| PaperConflicts.ConflictingRun | forward_paper/service.py:269-283 | A concrete run that conflicts, for every setting that closes nothing at TP1 |
| PaperConflicts.ConflictFreeIff | forward_paper/store.py:138-150 | Retries never conflict, for any trade, candles and crashes, if and only if the TP1 share is positive; no condition on any other setting |
| PaperQuantities.NeverOverdrawsIff | forward_paper/service.py:269-276 | No run exits more than was opened, and every run conserves quantities, if and only if neither the TP1 nor the TP2 share is negative |
| PaperQuantities.NegativeFirstShareOverdraws | forward_paper/service.py:269-276 | A trade that some run overdraws, for every negative TP1 share |
| PaperQuantities.NegativeSecondShareOverdraws | forward_paper/service.py:269-276 | The same for every negative TP2 share |
| PaperAccounting.StopNeverLoosens | forward_paper/service.py:398-400 | With sides right and a non-negative buffer, no later stop is looser than an earlier one |
| PaperAccounting.LossBound | forward_paper/store.py:328-334 | At every crash point: realised profit is at least minus the initial risk, not negative while open, and not negative once a stop moved |
| PaperAccounting.RunLossBound | forward_paper/service.py:248-294 | The same over every run from the opening |
| PaperAccounting.SettledPnl | forward_paper/store.py:328-334 | Once nothing remains, no legal continuation changes gross, fees or net |
| PaperAccounting.RecoveryPathsAgree | forward_paper/service.py:229-236 | Any two ways of finishing such a trade give the same gross, fees and net, whatever the exit label |
| PaperAccounting.SumsOfExits | forward_paper/store.py:328-333 | In every legal log the exit fees are half the round-trip rate on price times size over every exit, partial and terminal, and gross is the signed distance from the fill times size over the same exits |
| PaperAccounting.SumsGrow | forward_paper/store.py:328-334 | What one more event of any log adds to gross, fees and funding |
| PaperOutcomes.Reconstruct | forward_paper/store.py:222-268 | Fails exactly on a second terminal close; otherwise reports every trade once, with its outcome row or as incomplete, and counts unresolved and fragmented trades; what a row holds is in the next four rows |
| PaperOutcomes.RowOfLegalTrade | forward_paper/store.py:313-338 | A reachable trade has an outcome if and only if it is closed and its stop is positive. Gross and fees are written out over the prices and sizes of its exits, the terminal close included; net is gross minus fees, R times the risk is net, and every touch, partial, break-even and lock of the log is counted |
| PaperOutcomes.RowCounts | forward_paper/store.py:403-409 | Each touched target, partial, stop touch, break-even and lock is counted once |
| PaperOutcomes.OutcomeOfAnyTrade | forward_paper/store.py:313-338 | The outcome of any log with an opening and a close, legal or not: when there is one, which close it takes, and net with funding |
| PaperOutcomes.NoOutcome | forward_paper/store.py:222-268 | Without an opening or a close there is none |
| PaperOutcomes.RowLossBound | forward_paper/store.py:328-337 | No row loses more than the initial risk plus fees |
| PaperOutcomes.OutcomeStable | forward_paper/store.py:313-412 | A row, once reported, is reported unchanged after any further run of the whole book |
| PaperOutcomes.UnresolvedAreOpenStates | forward_paper/service.py:182-191 | A trade is unresolved in the report exactly when the service would still update it |
| PaperOutcomes.UnresolvedCountsOpenTrades | forward_paper/store.py:238-240 | In a reachable book the unresolved trades are the open ones and number at most the cap |
| PaperOutcomes.ReportOfReachableBook | forward_paper/store.py:231-268 | The reconstruction of a reachable book succeeds, and only legal paper trades have rows |
| PaperOutcomes.FragmentedIff | forward_paper/store.py:241-251 | Which open trades count as fragmented: a touched target, a persisted exit reason, or a size within the tolerance |
| PaperOutcomes.StopTouchNotCounted | forward_paper/store.py:241-251 | Every update that stops out an untouched trade has a crash point after which an intent is pending and not counted |
| PaperOutcomes.PendingNotCounted | forward_paper/store.py:241-251 | A trade and a candle for it |
| PaperBook.DecideIsSubmit | forward_paper/store.py:127-176 | What the store answers to a service append depends only on the events of the trade and on earlier openings of the candidate |
| PaperWorld.NextKeepsWorld | forward_paper/service.py:68-95 | One update, opening or rejection keeps every book invariant and only extends the log |
| PaperWorld.RunsKeepWorld | forward_paper/service.py:68-95 | In every reachable log trades follow their protocol, belong to one candidate and plan, and open trades have distinct symbols and number at most the cap |
| PaperWorld.AdmitEffect | forward_paper/service.py:85-94 | An admitted plan adds one open trade with its symbol; otherwise nothing changes |
| PaperWorld.OpenSymbolsSize | forward_paper/service.py:74-75 | The number of open symbols is the number of open trades, so the capacity is what the code computes |
| PaperPlanning.CriticalCheckIsValid | forward_paper/service.py:97-123 | The check of critical fields, with a notional that is not negative, lets through exactly the openings the lifecycle can work on |
| PaperPlanning.NegativeNotionalPasses | forward_paper/service.py:105-123 | A plan with a negative notional that passes the check |
| PaperPlanning.PlannedInNumbers | forward_paper/service.py:97-130 | The opening of a plan: size times fill is the notional, risk the distance of stop and fill times the size, and the entry pays half the round-trip rate on the notional |
| PaperPlanning.MissingIff | forward_paper/service.py:107-121 | Which critical fields are reported missing, in terms of plan and snapshot |
| PaperPlanning.PositiveConcat | forward_paper/service.py:104 | The targets are the positive prices of the plan, in their order |
| PaperPlanning.JoinedNames | forward_paper/service.py:123 | The rejection names the missing fields separated by commas |
| PaperStates.GroupByTrade | forward_paper/service.py:322-325 | The grouping loop yields, for every trade, its events in log order |
| PaperStates.RebuildState | forward_paper/service.py:327-380 | The replay loop computes the fold from the first opening |
| PaperStates.OpenedByIsFirst | forward_paper/service.py:327-344 | The state starts from the first opening of the log |
| PaperStates.OpenStates | forward_paper/service.py:182-191 | The open states are exactly the opened trades without a close, with their folds |
| PaperStates.OpenStatesAreOpenTrades | forward_paper/service.py:182-191 | In a reachable book they are exactly the open trades |
| PaperService.EmittedPush | forward_paper/service.py:383-390 | One more attempt of a trade is one more submission to the store |
| PaperService.ForwardPaperService.AppendEvent | forward_paper/service.py:383-390 | One append: the new book and the answer, or nothing when the process died |
| PaperService.ForwardPaperService.Close | forward_paper/service.py:309-320 | Emits exactly the exit and the close with gross and fee of the size, up to death or conflict |
| PaperService.ForwardPaperService.Partial | forward_paper/service.py:296-307 | Emits exactly the partial exit, or nothing for a size that is not positive |
| PaperService.ForwardPaperService.Observe | forward_paper/service.py:214-246 | Emits the mark and excursion events and updates the excursions in memory |
| PaperService.ForwardPaperService.WorkTarget | forward_paper/service.py:261-284 | Emits touch, partial and break-even move of one target, and leaves the memory the specification computes |
| PaperService.ForwardPaperService.WorkTargets | forward_paper/service.py:254-294 | The target loop with its early closes, and the profit lock after it |
| PaperService.ForwardPaperService.Stop | forward_paper/service.py:248-252 | Emits the stop touch and closes at the stop for all that remains |
| PaperService.ForwardPaperService.UpdateTrade | forward_paper/service.py:213-294 | One update of one trade emits its program, up to death or conflict; what the program is in candle prices is in the rows of `PaperTriggers` and `PaperMirror` |
| PaperService.ForwardPaperService.UpdateMarket | forward_paper/service.py:172-180 | Keeps the book invariants at every crash point; uncut, every open trade with a snapshot got its whole update and no other trade changed; it never raises |
| PaperService.ForwardPaperService.OpenTrade | forward_paper/service.py:97-170 | Opens the planned trade or rejects it, and says which |
| PaperService.ForwardPaperService.Process | forward_paper/service.py:68-95 | A scan is a run of allowed moves that keeps the book and the configured maximum of open trades; uncut, it leaves the book computed from the persisted log alone, without the running counters |
| PaperService.MapSnapshots | forward_paper/service.py:71 | For each symbol the last snapshot wins |
| PaperScan.ScanStopsIff | forward_paper/service.py:172-252 | A complete scan stops out an open trade if and only if the last candle of its symbol trades at its stop, or the latest close where there is no candle |
| PaperScan.ScanTouchesIff | forward_paper/service.py:172-268 | And touches a target if and only if it was touched, or the candle trades at it, with no stop and no earlier exit |
| PaperScan.PlanOpensIff | forward_paper/service.py:76-170 | A plan is opened if and only if it is executable, its symbol is free and has a snapshot, its fields are filled, its opening is workable and its candidate was never opened; otherwise no trade is opened |
| PaperScan.PlanRejects | forward_paper/service.py:80-123 | The rejection an executable plan with a free symbol leaves when its snapshot or critical fields are missing: cause, time and identity, once per plan |
| CandleEngine.PassingIsSeries | market_features/engine.py:60-75 | The scan passes exactly on sound, gap-free series |
| CandleEngine.ClosedIsPrefix | market_features/engine.py:76-80 | The closed candles of a series are a prefix: the ambiguous-order error is unreachable |
| CandleEngine.SelectClosedCandles | market_features/engine.py:53-81 | Succeeds exactly on a valid series whose first candle is closed, with its closed prefix; which error otherwise, exactly |
| CandleEngine.GroupCandles | market_features/engine.py:152-155 | The dictionary of buckets, each with its candles in order |
| CandleEngine.Publish | market_features/engine.py:156-162 | Exactly the complete buckets come out, in time order, each merged |
| CandleEngine.Merged | market_features/engine.py:161 | The merge, its first open and last close; what it means over the series is in `CandleBuckets.AggregateInNumbers` |
| CandleEngine.AggregateCandles | market_features/engine.py:148-162 | The result is the aggregate of the closed candles; every error case, exactly |
| CandleBuckets.AggregateInNumbers | market_features/engine.py:148-162 | Every candle of the aggregate, over the series: the candles that open in its bucket are an index range of as many as fit; it opens as the first and closes as the last of them, its high and low bound all of them and are attained, and its volumes are the sums over the range |
| CandleBuckets.AggregateHasIff | market_features/engine.py:156-160 | A candle for a bucket comes out if and only if the bucket is aligned, has ended, and closed candles cover it |
| CandleBuckets.IntervalIff | market_features/engine.py:16-50 | The eight timeframe names and their lengths, in upper or lower case |
| CandleBuckets.SeriesIff | market_features/engine.py:60-75 | A valid series in numbers |
| CandleBuckets.FaultIff | market_features/engine.py:60-75 | Which fault a candle has, in the order of the tests |
| CandleBuckets.SelectedIff | market_features/engine.py:76-81 | A candle is selected if and only if it has ended at the as-of time |
| CandleEngine.Ema | market_features/engine.py:84-93 | The loop computes the recursive average; the error cases |
| CandleBuckets.EmaStep | market_features/engine.py:84-93 | One more value moves the average by two (period + 1)-ths of its distance; a single value is its own average |
| CandleLaws.CompleteIff | market_features/engine.py:156-160 | A bucket is complete if and only if it is aligned and the series covers it up to the as-of time |
| CandleLaws.AggregateIsClosedSeries | market_features/engine.py:53-81 | A non-empty aggregate is aligned, gap free, sound and wholly closed at the target interval, so it passes selection there |
| CandleLaws.AggregateUnique | market_features/engine.py:156-162 | The specification of aggregation determines its result |
| CandleLaws.AggregationComposes | market_features/engine.py:148-162 | Aggregating to a middle interval and on to the target is aggregating directly, candle for candle with volumes |
| CandleLaws.LaterOnlyAppends | market_features/engine.py:148-162 | More candles and a later as-of only append; candles not closed yet change nothing |
| CandleLaws.NoLookAheadIff | market_features/engine.py:154-159 | All candles of a published bucket close by its end if and only if the source is aligned |
| CandleLaws.LookAhead | market_features/engine.py:154-159 | A series and a complete bucket with a candle that closes after it |
| CandleLaws.OffsetCountsBack | market_features/engine.py:118-139 | On a certified timeframe offset k is the closed candle k intervals before the latest, and exists exactly within the history |
| CandleBuckets.ClosedWindowIff | market_features/engine.py:118-130 | When a timeframe gives a window, and which error otherwise |
| CandleBuckets.TailIsEnd | market_features/engine.py:118-130 | A window of a size is the end of the series, for positive, zero and negative sizes |
| CandleLaws.EmaBetween | market_features/engine.py:84-93 | The average stays within the range of its inputs |
| PositionLifecycle.LivePosition.CancelExistingStops | execution/tp_sl_lifecycle.py:379-426 | One cancellation per known id, the direct one first, then the one of the payload and the active ones; success means all were granted, and only then the ids are dropped |
| PositionLifecycle.LivePosition.MoveStopWithRetries | execution/tp_sl_lifecycle.py:462-481 | No new stop before all old ones are cancelled; at most three attempts, none after a success |
| PositionLifecycle.LivePosition.ProtectAfterFill | execution/tp_sl_lifecycle.py:483-570 | The local stop changes exactly when the move was granted and then confirmed; when it differs from the stop granted last, and when no stop order is left |
| PositionLifecycle.NotProtectedIsRefused | execution/tp_sl_lifecycle.py:504-550 | A protection that did not happen was refused by some call |
| PositionLifecycle.LivePosition.ProtectNearTarget | execution/position_manager.py:433-534 | Near TP1 the stop goes to break-even plus fees, exactly when that tightens it and the exchange grants it |
| PositionLifecycle.LivePosition.CleanResidual | execution/position_manager.py:547-641 | When a residual position is closed, and what each answer leaves |
| PositionLifecycle.LivePosition.RecoverLock | execution/position_manager.py:680-702 | After TP2 an unlocked record is locked at TP1, or a call was refused |
| PositionLifecycle.LivePosition.EnsureProtection | execution/tp_sl_lifecycle.py:289-346 | No call when protection is known or cannot be built; otherwise up to three placements |
| PositionLifecycle.LivePosition.CloseUnprotected | execution/tp_sl_lifecycle.py:572-602 | One request to close, a second when the client rejected the arguments; closed, or refused in this pass |
| PositionLifecycle.LivePosition.VerifyProtection | execution/position_manager.py:704-768 | An unverified record is repaired, or closed, or closing was refused in this pass |
| PositionLifecycle.LivePosition.LockProfit | execution/position_manager.py:791-831 | When the profit lock is tried, and what it leaves |
| PositionLifecycle.LivePosition.TakeTp1 | execution/position_manager.py:833-876 | TP1 is taken if and only if the candle reached its price or less than its share is still live: flag, share, and break-even unless it is the only target |
| PositionLifecycle.LivePosition.TakeTp2 | execution/position_manager.py:878-913 | TP2 is taken if and only if the candle reached the second price or the live size shrank to the stated bound: flag, share, and the stop at TP1, also where that loosens it |
| PositionLifecycle.LivePosition.TakeTp3 | execution/position_manager.py:915-994 | TP3 by the third price or by what is live: close everything, raising when the exchange does, or take the share |
| PositionLifecycle.LivePosition.RetryTighten | execution/position_manager.py:1000-1026 | A pending tightening is retried exactly while it would tighten |
| PositionLifecycle.LivePosition.TightenFailedContinuation | execution/position_manager.py:1028-1107 | When a failed continuation is tightened, and that a failure stays pending |
| PositionLifecycle.LivePosition.CloseDeadTrade | execution/position_manager.py:1112-1171 | A flat trade past its time is closed when the exchange accepts |
| PositionLifecycle.LivePosition.CloseOnLocalStop | execution/position_manager.py:1173-1236 | A touched local stop closes the record only when the exchange holds no quantity |
| PositionLifecycle.LivePosition.Synchronise | execution/position_manager.py:347-1236 | A whole pass over a live record: each target flag is set if and only if it was, or its own price was reached, or its share is gone from the exchange; what is left after the shares newly taken; that it ends verified or could not be closed in this pass, that its stop is the last one recorded and every recorded one was granted in the pass, where the stop is when nothing was refused, and that it is closed only for a reason |
| PositionTriggers.DueIsByPrice | execution/position_manager.py:833-994 | The three targets by their own prices or by what is live, for both directions, and what their shares leave |
| PositionTriggers.TargetsDueIff | execution/position_manager.py:833-921 | When each target is due, in prices and percentages |
| PositionTriggers.SharesInNumbers | execution/position_manager.py:842-979 | What the record says is left is what it said before less the shares newly taken, and not below zero |
| PositionTriggers.TargetStopInNumbers | execution/position_manager.py:855-907 | Where the targets move the stop: TP2 to the first target, TP1 alone to the fee break-even, in numbers |
| PositionTriggers.RemainingInNumbers | execution/position_manager.py:351-359 | The percentage left on the exchange |
| PositionTriggers.ProfitInNumbers | execution/position_manager.py:361-373 | Profit and best profit in percent of the entry, for both directions |
| PositionTriggers.BreakEvenInNumbers | execution/tp_sl_lifecycle.py:639-644 | The fee break-even, with 0.10 percent where no buffer is set |
| PositionTriggers.HealedIff | execution/tp_sl_lifecycle.py:82-116 | When a record takes its protection from the execution log, and what it takes |
| PositionTriggers.NearTpDueIff | execution/position_manager.py:433-462 | The near-target stop is due if and only if the best profit covered 85 percent of the way to the first target and the stop fits between old stop and price |
| PositionTriggers.ResidualDueIff | execution/position_manager.py:547-556 | When a residual is due |
| PositionTriggers.ProfitLockDueIff | execution/position_manager.py:791-816 | When the profit lock is due, in numbers |
| PositionTriggers.TightenStopInNumbers | execution/tp_sl_lifecycle.py:210-217 | The tightened stop: break-even, or 0.06 percent behind the price where that is tighter |
| PositionTriggers.TightenDueIff | execution/tp_sl_lifecycle.py:219-274 | When a failed continuation is due for tightening, with every threshold |
| PositionTriggers.NextTargetIff | execution/tp_sl_lifecycle.py:159-169 | The next target is the first positive one not taken, once those before it are |
| PositionTriggers.DistanceInNumbers | execution/tp_sl_lifecycle.py:148-157 | The distance to a target in percent of the price |
| PositionTriggers.DeadTradeDueIff | execution/position_manager.py:1112-1129 | When a flat trade is past its time |
| PositionLifecycle.UnconfirmedStopIff | execution/tp_sl_lifecycle.py:521-550 | A protective move leaves a local stop other than the one granted last if and only if the move to a new price was granted and not confirmed |
| PositionLifecycle.UnconfirmedMove | execution/tp_sl_lifecycle.py:521-550 | A trace that does |
| PositionLifecycle.NoStopLeftIff | execution/tp_sl_lifecycle.py:379-481 | A move leaves no stop order if and only if every cancellation was granted and all three attempts refused |
| PositionLifecycle.ProtectLeavesNoStopIff | execution/tp_sl_lifecycle.py:483-516 | The same for a whole protective move |
| PositionLifecycle.AbandonedMove | execution/tp_sl_lifecycle.py:462-516 | A trace that leaves none |
| PositionManager.PositionManager.RecoverMissing | execution/position_reconciler.py:16-121 | Every usable untracked exchange position gets a fresh open record made from it, and nothing else does |
| PositionManager.RecoveredInNumbers | execution/position_reconciler.py:42-117 | When a position is usable, and what its record says: its own numbers, and the protection of the exchange if complete, else that of the execution log if complete |
| PositionManager.ViewInNumbers | execution/position_manager.py:48-84 | What a pass sees of a record: which price, which live size |
| PositionManager.PositionManager.SyncPosition | execution/position_manager.py:145-346 | One record: skipped, kept with the last price on a failed query, marked closed with its reason when no live position of its symbol has a quantity, or synchronised |
| PositionManager.PositionManager.Sync | execution/position_manager.py:40-1273 | After a completed pass with a successful query every open record is open on the exchange; a failed query changes no status; an abort saves no changed record, and a protected record it had moved was granted a stop that is not saved; nothing is lost |
| PositionManager.RunsFollow | execution/position_manager.py:145-150 | Over any run of passes closed never reopens, flags never clear, and no remaining percentage rises |
| FunnelTelemetry.FunnelEventStore.IndexLine | telemetry/funnel.py:212-224 | A line passes exactly when the index accepts it, and is then taken in |
| FunnelTelemetry.InStep | telemetry/funnel.py:212-224 | An index in step with the log accepts exactly the lines that may follow, and stays in step |
| FunnelTelemetry.FunnelEventStore.SyncIndex | telemetry/funnel.py:226-260 | In step, reading only the unseen tail decides whether the whole log is valid, and a failure stops at the first bad line; ahead of its offset the index rejects every longer valid log and accepts one cut back to the offset |
| FunnelTelemetry.FunnelEventStore.Append | telemetry/funnel.py:310-342 | In step, the answer in every case and the new log; ahead of its offset, a longer valid log is called corrupt and any record written breaks the chain |
| FunnelTelemetry.AnswerIff | telemetry/funnel.py:310-325 | Each answer in terms of the lines already there: same id, same stage of the candidate, a foreign lifecycle key, an invalid record |
| FunnelTelemetry.KeyedIff | telemetry/funnel.py:310-314 | What is filled in when it is absent, and what stays |
| FunnelTelemetry.ValidRecordIff | telemetry/funnel.py:115-129 | A valid record, field by field |
| FunnelTelemetry.ValidStoredIff | telemetry/funnel.py:152-168 | A stored record, legacy or current, field by field |
| FunnelTelemetry.StoredIff | telemetry/funnel.py:152-224 | What the reader accepts, record by record: valid, chained, with no id and no stage of a record before it |
| FunnelTelemetry.RepairedTailStaysRejected | telemetry/funnel.py:226-260 | A good and a bad line read together, then any valid file: every record is rejected |
| FunnelTelemetry.AppendAllStored | telemetry/funnel.py:262-304 | The reader accepts what any sequence of appends wrote |
| FunnelTelemetry.StageWrittenOnce | telemetry/funnel.py:319-324 | A written stage of a candidate is never written again, whatever scan, id or verdict |
| FunnelTelemetry.FunnelTamperEvident | telemetry/funnel.py:152-168 | Tamper evidence of the funnel log, up to collisions |
| FunnelAnalysis.StrategyFunnelAnalyzer.ValidateStructuredChain | analysis/strategy_funnel.py:508-547 | Trusts exactly the logs every record of which passes, and records the first position that does not |
| FunnelAnalysis.TrustedRecords | analysis/strategy_funnel.py:508-547 | What the validator trusts, record by record |
| FunnelAnalysis.WellFormedFields | analysis/strategy_funnel.py:514-535 | A record it lets pass, field by field |
| FunnelAnalysis.TrustedIff | analysis/strategy_funnel.py:508-547 | The report trusts a log of filled-in records if and only if the writer's reader accepts it and it holds no legacy record and no `OUTCOME_LINK`; the reader rejects a trusted log if and only if a record has an empty field |
| FunnelAnalysis.BlankIsTrusted | analysis/strategy_funnel.py:514-516 | A log with an empty session that the report trusts and the writer's reader rejects |
| FunnelAnalysis.ReportReadsWriterIff | telemetry/funnel.py:22-34 | Over every run of the writer the report trusts the log if and only if no `OUTCOME_LINK` was written, and distrust is permanent |
| FunnelAnalysis.LinkedLogIsRejected | telemetry/funnel.py:22-34 | A record the writer accepts and its reader reads back, after which the report trusts no log of any further run |
| FunnelAnalysis.AcceptedTamperEvident | analysis/strategy_funnel.py:508-547 | Tamper evidence for both validators of the funnel log, also between them: equal heads mean equal logs, up to a collision |
| TradeSimulation.SimulateTrade | backtesting/backtest_engine.py:142-272 | The loop with early returns computes the first exit; what that is in candle prices is the next row |
| TradeSimulation.SimulationInNumbers | backtesting/backtest_engine.py:142-272 | The trade ends on the first candle that trades at the stop in force or at 1.5 times the risk, or on the sixth; the result is a stop if and only if that candle trades at the stop, and each label books its amount: -1, 1.5, or the signed distance of the close over the risk |
| TradeSimulation.NoLevelsNoResult | backtesting/backtest_engine.py:143-160 | Without an entry, a stop, or any distance between them there is no result |
| TradeSimulation.SimulationBounds | backtesting/backtest_engine.py:161-270 | On sound candles every result exits within six candles with R in [-1, 1.5]; when there is none |
| TradeSimulation.StopBooksItsPriceIff | backtesting/backtest_engine.py:176-194 | A stop books what its price is worth if and only if no earlier candle reached TP1 and the stop is on the losing side; otherwise it books too little |
| TradeSimulation.MovedStopBooksFullLoss | backtesting/backtest_engine.py:176-194 | Two candles that book -1 R for an exit at the entry |
| TradeSimulation.WinningStopBooksLoss | backtesting/backtest_engine.py:176-194 | A candle that books -1 R where the price gives 1 R |
| TradeSimulation.MirroredSimulation | backtesting/backtest_engine.py:165-270 | Long and short are mirror images about the entry in label, R, holding time and flags |
| TradeSimulation.LaterCandlesChangeNothing | backtesting/backtest_engine.py:174-272 | A result never depends on later candles |
| CsvRotation.RotatedFile.RotateIfNeeded | telemetry/csv_rotation.py:11-29 | When it rotates, and where every file goes, gaps included |
| CsvRotation.RotatedFile.RotatedSegments | telemetry/csv_rotation.py:32-41 | The existing archives oldest first and then the live file; joined, they are the history |
| CsvRotation.RotationKeepsSuffix | telemetry/csv_rotation.py:11-41 | From a single live file, after any run, the history is a suffix of everything appended, and all of it until more rotations than backups |
| RateLimiter.RateLimiter.Pass | scripts/phase4c_acquire_basis_prices.py:26-30 | The deque is the grants of the last second; the answer is that of a limiter that remembers everything |
| RateLimiter.RateLimiter.WaitFor | scripts/phase4c_acquire_basis_prices.py:24-31 | A caller gets through at the first reading with room, and fails only with a rate that is not positive |
| RateLimiter.GrantsAreSpaced | scripts/phase4c_acquire_basis_prices.py:22-31 | Over every run of any number of callers, grant i + rate comes at least a second after grant i |
| RateLimiter.DelayIsExact | scripts/phase4c_acquire_basis_prices.py:30-31 | With no grant in between, a waiting caller gets through exactly from the computed delay on |
| RateLimiter.AnswerInSeconds | scripts/phase4c_acquire_basis_prices.py:24-31 | A caller passes if and only if there are fewer grants than the rate or the one that many places back is a second old; what happens without a positive rate |
| RateLimiter.DelayInSeconds | scripts/phase4c_acquire_basis_prices.py:30-31 | The delay is what the oldest grant of the last second is short of a second |

## Left out

- File locks, fsync, temporary files and JSON text: an append is one atomic step and canonical JSON is equality of values.
- Rounding (`round(..., 8)` and the like): results are stated before rounding.
- Rendering of ids and keys as strings: trade ids, event ids and semantic keys of the paper log are structural values.
- Schema-v1 payloads of the paper log: the reader accepts the version, the lifecycle is modelled for schema 2.
- A retry of `open_trade` with a changed payload, or of a rejection with a changed reason, raises and ends the scan; `PaperService.ForwardPaperService.Process` then promises only what holds at a crash.
- PaperGuarantees.RunLegal: assumes a positive TP1 share and a TP2 share that is not negative; what happens otherwise is in `PaperConflicts.ConflictFreeIff` and `PaperQuantities.NeverOverdrawsIff`.
- PaperService.ForwardPaperService.OpenTrade: assumes a plan notional that is not negative; a negative one passes the check and opens a trade of negative size, about which nothing is promised.
- PaperService.ForwardPaperService.Process: assumes that of every plan, which the planner (not part of this model) supplies; takes wall-clock time and plans as parameters, and does not model the funnel links it records.
- PaperOutcomes.Reconstruct: does not sort the rows and leaves out excursion, slippage and descriptive columns, the dataset hash and the CSV file.
- CandleEngine.SelectClosedCandles: non-finite numbers and values that are not numbers do not exist here.
- PositionManager.PositionManager.Sync: does not model notes, events, the journal, cooldowns, dataset rows or durations; the reason of an exchange-side close comes from a table instead of the exchange's history.
- PositionManager.PositionManager.SyncPosition: symbols are compared as given, without case folding, and a record's size is its single size field.
- PositionLifecycle.LivePosition.TightenFailedContinuation: the reading of pressure from snapshot notes and the strategy name are inputs.
- FunnelTelemetry.FunnelEventStore.SyncIndex: a file that is replaced by another of at least the same length is not noticed; of an index ahead of its offset nothing more is promised on a log that is not valid.
- FunnelTelemetry.FunnelEventStore.Append: keeps the optional details and extra text fields with the record, and does not write the quality report.
- TradeSimulation.SimulateTrade: results in R before rounding to two places.
- CsvRotation.RotatedFile.RotateIfNeeded: operating-system errors are not modelled.
- RateLimiter.RateLimiter.Pass: the lock is what makes a pass one step; sleeping is the time between two passes.
- Detectors, scoring, risk rules, order-book and volatility heuristics, adaptive targets, exchange clients, live order execution, dashboards and reports: threshold tables and I/O without deep properties.
