# A verified model of the volatility trading research platform

The platform simulates delta-hedged option positions, keeps a bitemporal catalogue of instruments,
reconstructs option chains as they were known at a cutoff, coordinates live quote subscriptions and
records provider lifecycle events. This project models those parts in Dafny and proves what they keep.

- **Simulation and books** (`Money`, `Fills`, `Positions`, `Ledger`, `Hedging`, `Risk`, `Engine`,
  `Hedgeability`, `EngineSafety`, `EngineControl`, `EngineLimits`, `EngineDecisions`, `EngineHorizon`,
  `EngineAttribution`, `Attribution`, `Clock`, `StateBuilder`, `SimulationRun`, `StrategyRun`, `Drawdown`).
  `Engine` is the run as a function of its configuration and market states; `SimulationRun` is the loop over a
  live ledger that computes it, and `StrategyRun` the way there from a path. Every run of three different
  instruments ends flat, reconciles to the cent, stays within its delta and hedge limits, exits by its horizon
  and attributes its option profit to within two cents. `PolicyMeaning`, `EngineEntry`, `EngineTrades`, `EngineMarks`,
  `EngineExits` and `EngineJournal` say what a run does, state by state, without the functions that do it: what it
  asks for, trades, is worth, books and ends for.
- **Bitemporal records and the catalogue** (`Temporal`, `RecordTables`, `RecordInsertion`, `CatalogueStore`,
  `CatalogueOutcomes`, `CatalogueRepository`, `CataloguePlan`, `CataloguePlanMeaning`, `CatalogueIdentity`,
  `CatalogueBinding`). The resolver accepts exactly the valid supersession graphs and answers with the newest
  eligible record of the one chain that holds any, and any table takes exactly the records that keep its graph
  valid. The commit protocol keeps every scope a single chain over any sequence of attempts, reports each category
  exactly and refuses exactly for the first reason. A plan accounts for every row of its file, and binding a
  recorded time to it is building it at that time.
- **Point-in-time option chain** (`Dictionaries`, `Sorting`, `CorrectionGraph`, `OptionChain`, `ChainMeaning`).
  Corrections are accepted when one-to-one and acyclic; no contract is lost to them, nothing late is looked at, and
  `ChainMeaning` says in the records themselves which quotes are seen and which of them is quoted.
- **Live subscriptions** (`CoordinatorProtocol`, `CoordinatorOutcomes`, `Coordinator`, `LiveQuotes`, `LiveFeed`). The
  protocol as a state machine over arbitrary interleavings, failures and cancellations, what every caller ends with,
  and the object whose methods are its steps; what a store of quotes decides from its history, and what a listener
  hears.
- **Lifecycle events** (`ConnectionLifecycle`, `SubscriptionLifecycle`, `BatchMembership`). The sequence
  validators against declarative specifications, and the deferred database checks against de-duplication.
- **Implied volatility** (`ImpliedVolatility`). Bisection of an arbitrary price function.

Amounts that have been rounded are whole cents (`int`); amounts that have not are `real` cents. Floating
point and decimal contexts are taken as exact arithmetic. Identifiers are abstract values, equal exactly when
the identity fields are; the record hash of the catalogue store is an arbitrary function, and colliding
identities are refused as the code does. Option prices, the cube root of the Whalley-Wilmott band, the futures
carry, clocks and the provider's answers are parameters.

## What the proofs found

- A run can exit as unhedgeable although its net delta is within the limit, even at zero: when a policy's own
  hedge would end over the limit, the forced hedge is tried instead, and within half a contract of zero it has
  nothing to reduce; holding is not considered. A target that a policy trades to from there therefore needs half a
  contract of room below the limit; that it lies within the limit is not enough.
  `Hedgeability.NeverGivesUpExactlyWhen` is the exact condition on a policy's parameters, the contract delta and the
  limit; `EngineControl.RunsAreHedgedExactlyWhen` is the same for whole runs and
  `EngineControl.RunGivesUpAtZeroDelta` an input. Never hedging, a band that contains zero and the Whalley-Wilmott
  band need only a limit of half a contract.
- `record_fill` appends its two entries before the position refuses a changed multiplier, so a refused fill
  leaves cash moved (`Ledger.RefusedFillMovesCash`, and `Ledger.SecondMultiplierRefused` for an input). A fill
  is all or nothing exactly when it keeps its position's multiplier (`Ledger.AllOrNothingExactlyWhen`), as every
  fill of a run of three different instruments does (`EngineSafety.LedgerNeverRefuses`).
- The reconciliation residual is not an error bound: it is the cash of uncounted fills minus that of fills
  counted twice (`Ledger.ResidualIsMiscounted`). Runs whose three instruments differ always reconcile exactly,
  so for them the reconciliation failure is unreachable; that the instruments differ is not checked by the
  configuration.
- A subscription's mode can also change at `unsubscribe_requested`, where it may be left out
  (`SubscriptionLifecycle.ModeRuleFails`); it changes at change requests only exactly when every unsubscription
  request names it (`SubscriptionLifecycle.ModeRuleExactlyWhen`).
- A quote store that already holds a key ahead of the coordinator's own counter never takes another quote of that
  key (`LiveFeed.AheadIsStuck`). The application starts with an empty store, where it cannot happen.
- A provider file with several underlying rows is accepted when they have one content. The scan compares the key
  as it stands while the pass strips it, so a padded underlying row alone is not found
  (`CataloguePlan.PaddedUnderlyingNotFound`).
- The cycle error of the temporal graph and the clock overrun of the path check are unreachable.

## Model

| member | source | states |
|---|---|---|
| `Money.HalfEvenCharacterized` | `backend/app/execution/costs.py:7-8` | half-even rounding is the only whole number within half a unit that is even at a tie |
| `Money.HalfEvenNearest` | `backend/app/execution/costs.py:7-8` | no whole number is nearer than the rounded one |
| `Money.HalfEvenMonotone` | `backend/app/execution/costs.py:7-8` | rounding keeps order |
| `Money.HalfEvenOdd` | `backend/app/execution/costs.py:7-8` | rounding is odd: a debit rounds as the credit of the same size |
| `Money.HalfEvenSign` | `backend/app/execution/costs.py:7-8` | rounding never changes a sign and gives zero exactly within half a unit |
| `Fills.CostError` | `backend/app/execution/fills.py:9-44` | the cost total is the sum of four components, each rounded on its own, and within two cents of the unrounded costs |
| `Fills.FillAmounts` | `backend/app/execution/fills.py:9-44` | no cost component, cost total or notional of a fill is negative |
| `Fills.NotionalError` | `backend/app/execution/fills.py:9-44` | the booked notional is within half a cent of the unrounded one |
| `Fills.FillBooksOrder` | `backend/app/execution/fills.py:9-44` | a fill books its order: the reference price, the notional and each cost component rounded on its own, the proportional cost from the booked notional |
| `Fills.FillPriceIsAdverse` | `backend/app/execution/fills.py:9-44` | the fill price is the reference price moved by half spread and slippage against the trader, not below zero, rounded |
| `Fills.FillIsAdverse` | `backend/app/execution/fills.py:9-44` | a buyer never pays less than the reference price and a seller never receives more |
| `Positions.AddDrift` | `backend/app/portfolio/positions.py:28-61` | a fill that adds in the same direction moves realized profit minus book value plus reference cost by at most half a cent for each contract held after it |
| `Positions.OtherFillsDoNotDrift` | `backend/app/portfolio/positions.py:28-61` | opening, reducing, closing and flipping fills move it by nothing |
| `Positions.DriftBound` | `backend/app/portfolio/positions.py:28-61` | over any fills of one instrument the drift is at most half a cent times the multiplier times the contracts held after each same-direction add |
| `Positions.ExactWithoutAveraging` | `backend/app/portfolio/positions.py:28-61` | fills that never add to an open position account exactly |
| `Positions.DriftBoundIsReached` | `backend/app/portfolio/positions.py:28-61` | the bound is tight: concrete fills reach it |
| `Positions.ReductionRealizes` | `backend/app/portfolio/positions.py:28-61` | a trade against the position realizes the move from the average on the contracts it closes and only those; the average of what stays open is the old one, a closed one has none, and across zero the rest is held at the fill price |
| `Positions.AddingRealizesNothing` | `backend/app/portfolio/positions.py:28-61` | a fill that opens, re-opens or adds realizes nothing; a fresh position is held at the fill price |
| `Ledger.PortfolioLedger.constructor` | `backend/app/portfolio/ledger.py:41-58` | a new ledger holds its rounded starting value as one capital entry and no position |
| `Ledger.PortfolioLedger.RecordFill` | `backend/app/portfolio/ledger.py:68-97` | the whole new ledger after a fill, accepted or refused for its multiplier |
| `Ledger.PortfolioLedger.Mark` | `backend/app/portfolio/ledger.py:99-108` | one position takes the rounded price and nothing else changes |
| `Ledger.PortfolioLedger.PortfolioValue` | `backend/app/portfolio/ledger.py:61-63` | the summing loops compute cash plus holdings |
| `Ledger.RecordedCash` | `backend/app/portfolio/ledger.py:68-97` | a fill moves cash by its signed notional and its cost, also when the position refuses it |
| `Ledger.AllOrNothingExactlyWhen` | `backend/app/portfolio/ledger.py:68-97` | a fill is booked whole or not at all exactly when its instrument is new or its multiplier is that of the position |
| `Ledger.RefusedFillMovesCash` | `backend/app/portfolio/ledger.py:68-97` | a refused fill leaves the positions and has moved the cash |
| `Ledger.SecondMultiplierRefused` | `backend/app/portfolio/ledger.py:68-97` | an input: a second fill of one instrument with another multiplier |
| `Ledger.RecordedValue` | `backend/app/portfolio/ledger.py:68-111` | a fill moves the portfolio value by its cash, its cost and the change of one position |
| `Ledger.HoldingsUpdate` | `backend/app/portfolio/ledger.py:110-111` | replacing one position changes the holdings by the change of that position only |
| `Ledger.CashAndQuantityConserved` | `backend/app/portfolio/ledger.py:68-111` | over any history of fills and marks, cash is the starting value plus all fill cash, and each quantity is the sum of its fills |
| `Ledger.CostsConserved` | `backend/app/portfolio/ledger.py:68-97` | over any history the costs in the journal are those of its fills |
| `Ledger.FlatHistoryEarnsItsCash` | `backend/app/portfolio/ledger.py:113-114` | when every position is closed the profit is exactly the cash of the fills |
| `Ledger.ReconcilePartition` | `backend/app/attribution/reconciliation.py:11-44` | option, futures and cost sums together are the cash of the counted fills |
| `Ledger.ResidualIsMiscounted` | `backend/app/attribution/reconciliation.py:11-44` | the residual is exactly the cash of uncounted fills minus that of fills counted twice |
| `Ledger.OneMoreReconciled` | `backend/app/attribution/reconciliation.py:11-44` | one more fill adds its notional and its cost to the sums of its own instruments and to no other, and the residual and status follow |
| `Ledger.EveryFillCountedOnce` | `backend/app/attribution/reconciliation.py:11-44` | with option and futures instruments kept apart and covering every fill, nothing is miscounted |
| `Hedging.RoundedHedgeIsOptimal` | `backend/app/hedging/policies.py:111-168` | no whole number of contracts ends nearer the target, and the miss is at most half a contract |
| `Hedging.RequestIsZero` | `backend/app/hedging/policies.py:111-150` | a hedge is rounded to nothing exactly when the target is within half a contract |
| `Hedging.BandPolicyEndsAtNearestBoundary` | `backend/app/hedging/policies.py:51-79` | a breached band is hedged to its nearer boundary, to within half a contract, and in that direction only |
| `Hedging.WhalleyWilmottEndsAtNearestBoundary` | `backend/app/hedging/whalley_wilmott.py:19-101` | the Whalley-Wilmott policy has a band around zero whose half width is the cube root capped at its maximum, and hedges a breach to its nearer boundary |
| `PolicyMeaning.RequestIsNearest` | `backend/app/hedging/policies.py:111-168` | the requested contracts are the one nearest trade to the target, even at a tie |
| `PolicyMeaning.PolicyAsks` | `backend/app/hedging/policies.py:9-88` | what each policy asks at a state, told from the net delta alone: when it holds, what it aims at, and why |
| `PolicyMeaning.WidthSolvesItsEquation` | `backend/app/hedging/whalley_wilmott.py:15-46` | below its cap the Whalley-Wilmott half width solves its cubic equation, whatever computes the cube root |
| `PolicyMeaning.DeltaIsControlled` | `backend/app/simulation/engine.py:194-270` | a decision is kept exactly within the limit; else the nearest trade to zero is forced when it trades, comes closer and ends within the limit; else the run gives up |
| `Hedging.DecisionAccounts` | `backend/app/hedging/policies.py:9-88` | under every policy the predicted deltas of a decision add up |
| `Hedging.ForcedHedgeReduces` | `backend/app/hedging/policies.py:204-212` | the forced hedge reduces the net delta exactly when that is more than half a contract |
| `Hedgeability.NeverGivesUpExactlyWhen` | `backend/app/hedging/policies.py:9-168` | at no state is a policy given up on exactly when the limit covers half a contract and the targets that can be traded to from near zero, each with half a contract on top |
| `Hedgeability.GivesUpSomewhere` | `backend/app/simulation/engine.py:194-206` | otherwise there is a net delta within half a contract of zero at which every first step gives up |
| `Hedgeability.GivesUpInside` | `backend/app/simulation/engine.py:194-206` | with a limit of at least half a contract, what is given up is exactly a decision over the limit at a net delta within half a contract of zero |
| `EngineControl.RunsAreHedgedExactlyWhen` | `backend/app/simulation/engine.py:194-270` | no run under a policy, contract delta and limit exits as unhedgeable exactly when that condition holds of the three |
| `EngineControl.RunGivesUpAtZeroDelta` | `backend/app/simulation/engine.py:194-270` | an input: a run that exits as unhedgeable while its net delta is zero |
| `Hedging.ControlledDeltaWithinLimit` | `backend/app/simulation/engine.py:194-206` | whatever is not given up ends within the limit |
| `Hedging.BreachIsAlwaysHedged` | `backend/app/simulation/engine.py:194-206` | with a limit of at least half a contract, a net delta over the limit always gets an accepted forced hedge |
| `Risk.SessionProfitAddsUp` | `backend/app/simulation/risk.py:44-90` | profit since entry is the profit of every ended session plus the current one, and the hedge counters count |
| `EngineSafety.PostKeepsExplained` | `backend/app/simulation/engine.py:112-115` | a fill of the position's own multiplier is accepted, moves one quantity by its trade and keeps the cash explained by the fills |
| `EngineSafety.MarkStateFrame` | `backend/app/simulation/engine.py:132-139` | marking changes prices only: no quantity, multiplier or entry |
| `EngineSafety.ExecuteKeeps` | `backend/app/simulation/engine.py:275-297` | the requested hedge is traded in full, moves the futures position by it and is counted once |
| `EngineSafety.CompleteKeeps` | `backend/app/simulation/engine.py:272-330` | carrying out a decision never fails, moves the futures position by the request and appends one record |
| `EngineSafety.EnterEstablishes` | `backend/app/simulation/engine.py:101-120` | the entry fills are never refused and open exactly the straddle |
| `EngineSafety.StepKeeps` | `backend/app/simulation/engine.py:132-350` | every state keeps the options at their entry quantity, the cash explained by the fills and the hedge count equal to the hedge fills |
| `EngineSafety.FinalStateStops` | `backend/app/simulation/engine.py:159-188` | the last state of a path always exits |
| `EngineSafety.LoopInvariant` | `backend/app/simulation/engine.py:128-350` | induction over the loop: what every step keeps holds to its end, which it reaches at a state of the path without crashing |
| `EngineSafety.LoopKeeps` | `backend/app/simulation/engine.py:128-350` | the book invariant holds over the whole loop |
| `EngineSafety.OffsettingFillCloses` | `backend/app/simulation/engine.py:352-394` | a fill of the opposite quantity closes its position and leaves the others as they were |
| `EngineSafety.CloseOutKeeps` | `backend/app/simulation/engine.py:352-394` | close-out leaves nothing open |
| `EngineSafety.LedgerNeverRefuses` | `backend/app/simulation/engine.py:70-394` | from its market states on, a run of three different instruments is refused no fill, so it errs only without states or at its entry check |
| `EngineSafety.RunEndsFlatAndReconciled` | `backend/app/simulation/engine.py:352-407` | every run of three different instruments ends flat with residual zero, so its status is complete; its profit is the cash of its fills |
| `EngineEntry.RunsExactlyWhen` | `backend/app/simulation/engine.py:70-100` | a run of three different instruments comes to a result exactly when it has states and no entry check fails at the first; otherwise the error is the first check that fails, in order |
| `EngineTrades.EveryRunDoesExactly` | `backend/app/simulation/engine.py:70-394` | all a run does, from its configuration and states: the entry fills, two valuations a state, the decision of each state on the delta of the options and of the futures traded so far, the hedge fills, and the close-out fills |
| `EngineMarks.ValueOfMarked` | `backend/app/portfolio/ledger.py:61-63` | a marked run is worth its starting value, the cash of its fills and what they left to hold at the prices of the state |
| `EngineExits.ExitIsFirstCall` | `backend/app/simulation/risk.py:208-269` | the exit check answers the first reason in the order of precedence, each told in profits, hedges and times, or none |
| `EngineExits.EveryRunExitsForFirstReason` | `backend/app/simulation/engine.py:128-190` | at every state before the last no reason calls: switch off, session and position loss below their fractions of the starting value, hedges and time left; at the last the exit reason is the first that calls, unless the run gave up on its net delta. Losses are told from the fills and the prices |
| `EngineExits.FirstCallIsOne` | `backend/app/simulation/risk.py:208-269` | the reason is determined: what calls first is one reason |
| `EngineJournal.LedgerIsItsFills` | `backend/app/portfolio/ledger.py:68-97` | the journal of a run is its capital and then two entries for each fill, and each position is the replay of its own fills |
| `EngineJournal.RunIsSettled` | `backend/app/simulation/engine.py:396-437` | the reconciliation, status, terminal value and hedge count of a result are those of its ledger |
| `EngineDecisions.EveryDecisionWithinLimit` | `backend/app/simulation/engine.py:132-330` | decision i of a run carries the date of state i, the option delta of its two valuations and the delta of the futures traded by the fills up to it; every completed one leaves their sum within the limit, and only a run that gave up has another, its last, which trades nothing |
| `EngineDecisions.HedgesPerSessionWithinLimit` | `backend/app/simulation/risk.py:61-90` | on a path whose dates do not go back, no session of its states has more hedging decisions than the limit |
| `EngineHorizon.RunEndsByHorizon` | `backend/app/simulation/engine.py:474-485` | on a clock path the run exits by the first decision of the horizon session, never for lack of time and never because the path ended |
| `EngineHorizon.TimeRemains` | `backend/app/simulation/clock.py:76-82` | up to that decision the expiry buffer is intact |
| `EngineHorizon.SessionReached` | `backend/app/simulation/clock.py:27-58` | the session index reaches the horizon exactly at that decision |
| `EngineHorizon.ClockRunIsChronological` | `backend/app/simulation/clock.py:27-58` | session dates of a clock path never go back |
| `EngineHorizon.ClockRunHedgesWithinLimit` | `backend/app/simulation/engine.py:128-350` | on a clock path no session has more hedges than the limit |
| `StrategyRun.RunStrategy` | `backend/app/simulation/engine.py:48-437` | from the path: expiry selection, clock check, states and simulation in order, each error naming what is missing; on a path of the generated length the run exits by the first decision of the horizon session, and every finished run is flat and reconciled |
| `StrategyRun.NotPastHorizon` | `backend/app/simulation/engine.py:474-485` | up to that decision the path has not passed the horizon session |
| `EngineHorizon.PathFitsItsSessions` | `backend/app/cli/run_gamma_simulation.py:174-182` | the sessions generated for a path are enough for its points |
| `Attribution.CalculateGreekAttribution` | `backend/app/attribution/greeks.py:26-68` | the interval loop computes one record for each pair of neighbouring states |
| `Attribution.AttributeInterval` | `backend/app/attribution/greeks.py:39-68` | the contract loop accumulates the contributions of one interval |
| `Attribution.IntervalIsWorthChange` | `backend/app/attribution/greeks.py:45-60` | the exact change of an interval is the change in the unrounded worth of the position |
| `Attribution.ExactChangesTelescope` | `backend/app/attribution/greeks.py:39-68` | the exact changes add up to the worth at the last state minus that at the first, and so do the contributions with their residuals |
| `Attribution.IntervalPartsAreGreeks` | `backend/app/attribution/greeks.py:39-68` | each contribution of an interval is its Greek at the first state times the move it stands for |
| `Attribution.RecordsAttribute` | `backend/app/attribution/greeks.py:26-68` | every record covers two neighbouring states in order and splits the change in worth between them |
| `EngineAttribution.OptionProfitOfExit` | `backend/app/simulation/engine.py:352-371` | the booked option profit is what the entry paid plus two exit notionals, each rounded to a cent |
| `EngineAttribution.EntryPaysRoundings` | `backend/app/simulation/engine.py:70-91` | the entry pays two notionals, each rounded to a cent |
| `EngineAttribution.AttributionMatchesBookedProfit` | `backend/app/simulation/engine.py:396-415` | the exact changes of a run are within two cents of its booked option profit |
| `SimulationRun.MarkPositions` | `backend/app/simulation/engine.py:132-139` | marking the live ledger is the marking step |
| `SimulationRun.TradeHedge` | `backend/app/simulation/engine.py:275-297` | a hedge on the live ledger is the execution step |
| `SimulationRun.CompleteHedge` | `backend/app/simulation/engine.py:272-330` | trading, re-valuing and appending is the completion step |
| `SimulationRun.ProcessState` | `backend/app/simulation/engine.py:128-350` | one pass of the loop body is one step |
| `SimulationRun.ProcessAll` | `backend/app/simulation/engine.py:128-350` | the loop with its exits is the loop of the specification |
| `SimulationRun.CloseAll` | `backend/app/simulation/engine.py:352-394` | the close-out on the live ledger is the close-out step |
| `SimulationRun.RunSimulation` | `backend/app/simulation/engine.py:70-437` | the loop over a live ledger and lists returns exactly the simulation of its market states, so every theorem about runs is about it |
| `Clock.NextWeekdaySkipsNone` | `backend/app/simulation/clock.py:85-92` | no weekday is skipped |
| `Clock.NthWeekdayIncreases` | `backend/app/simulation/clock.py:85-92` | trading dates strictly rise |
| `Clock.NthWeekdayMissesNone` | `backend/app/simulation/clock.py:85-92` | every weekday from the start on is a trading date |
| `Clock.TradingDates` | `backend/app/simulation/clock.py:85-92` | the loop returns the first weekdays from the start, in order |
| `Clock.AppendSession` | `backend/app/simulation/clock.py:37-57` | the decisions of one date follow those of the dates before |
| `Clock.GenerateSessions` | `backend/app/simulation/clock.py:27-58` | the clock lists every decision from the entry on, in order, and refuses an entry time that is not one of them |
| `Clock.ClockCoversPath` | `backend/app/simulation/state_builder.py:66-74` | the generated clock reaches past every point of a path |
| `Clock.ValidatePathClock` | `backend/app/simulation/state_builder.py:58-85` | a path is accepted exactly when it matches the clock point for point; it never exceeds the clock |
| `StateBuilder.SelectedExpiryIsLeast` | `backend/app/simulation/engine.py:488-499` | the selected expiry has the fewest sessions within the bounds, at least the horizon and the buffer |
| `StateBuilder.BuildExecutableStates` | `backend/app/simulation/state_builder.py:13-47` | exactly the paths that follow the generated clock are accepted, and each point becomes a state with its remaining times |
| `StateBuilder.StatesAlong` | `backend/app/simulation/state_builder.py:24-47` | the accumulating loop gives each state its remaining times |
| `StateBuilder.StateStandsOnClock` | `backend/app/simulation/state_builder.py:24-47` | state i of a path on the clock carries session i of the clock and the times that remain there |
| `StateBuilder.ClocksAgree` | `backend/app/simulation/clock.py:27-58` | a start date, a configuration and an entry time determine the clock |
| `StateBuilder.ElapsedOnClock` | `backend/app/simulation/state_builder.py:26-44` | on a clock path the elapsed time is the step count times the step |
| `Temporal.IndexStates` | `backend/app/instruments/temporal_records.py:220-228` | records are indexed, or refused when one identity has two contents |
| `Temporal.CheckLink` | `backend/app/instruments/temporal_records.py:231-251` | the checks of one link, each error being a defect that is there |
| `Temporal.LinkStates` | `backend/app/instruments/temporal_records.py:229-251` | linking succeeds only on a graph where links fit and none branches |
| `Temporal.WalkSuccessors` | `backend/app/instruments/temporal_records.py:252-258` | no walk along successors meets a record twice |
| `Temporal.ValidateVisibleGraph` | `backend/app/instruments/temporal_records.py:217-259` | exactly the valid graphs are accepted and the cycle error is never raised |
| `Temporal.ChainLinear` | `backend/app/instruments/temporal_records.py:217-259` | a component is a chain: of two records with one root, one supersedes the other |
| `Temporal.LeafIsNewest` | `backend/app/instruments/temporal_records.py:93-105` | a leaf is the newest eligible record of its chain |
| `Temporal.ChainHasLeaf` | `backend/app/instruments/temporal_records.py:93-105` | every chain with an eligible record has a leaf, even across ineligible records |
| `Temporal.LeavesOfTwoChains` | `backend/app/instruments/temporal_records.py:106-110` | two leaves are of two chains |
| `Temporal.HideAncestors` | `backend/app/instruments/temporal_records.py:96-101` | the walk hides exactly the eligible ancestors |
| `Temporal.ResolveTemporalState` | `backend/app/instruments/temporal_records.py:82-111` | the answer is the newest eligible record when one chain holds any, nothing when none does, ambiguous when two do |
| `Temporal.ResolveKnowledgeLeaf` | `backend/app/instruments/temporal_records.py:114-143` | the same with every record eligible |
| `Temporal.ResolutionIsUnique` | `backend/app/instruments/temporal_records.py:82-111` | that specification determines the answer |
| `Temporal.ValidAtEveryCutoff` | `backend/app/instruments/temporal_records.py:87-92` | a graph that is valid with no cutoff is valid at every one |
| `Temporal.LaterRecordsInvisible` | `backend/app/instruments/temporal_records.py:87-91` | records known later change nothing at a cutoff |
| `RecordTables.InsertAppends` | `backend/app/persistence/postgres/repositories.py:3194-3253` | a record that supersedes the last one of its scope is appended |
| `RecordTables.AppendExtendsChain` | `backend/app/persistence/postgres/repositories.py:3206-3241` | that extends one chain and no other |
| `RecordTables.InsertAllExtends` | `backend/app/persistence/postgres/repositories.py:3194-3253` | several insertions of different scopes do so together |
| `RecordInsertion.InsertsExactlyValid` | `backend/app/persistence/postgres/repositories.py:3194-3253` | whatever the table, a record is inserted exactly when its row brings no second content and the table with it is a graph the resolver accepts |
| `RecordInsertion.RefusalShows` | `backend/app/persistence/postgres/repositories.py:3194-3253` | a refusal names a defect of that graph: a missing, foreign or later target, a branch, a conflicting content |
| `RecordInsertion.InsertionsKeepGraph` | `backend/app/persistence/postgres/repositories.py:3194-3253` | over any insertions a valid graph stays one and loses nothing |
| `RecordTables.ChainResolvesToLast` | `backend/app/instruments/temporal_records.py:114-143` | over a chain the knowledge leaf is the last record |
| `RecordTables.KnowledgeLeaf` | `backend/app/persistence/postgres/repositories.py:2668-2680` | the resolver over a chained table returns the last record of the scope |
| `CatalogueStore.PlanItemPlans` | `backend/app/services/catalogue_ingestion_service.py:352-383` | a planned item names the leaves it supersedes and its key was bound to no other instrument |
| `RecordTables.InsertsExactlyWhen` | `backend/app/persistence/postgres/repositories.py:3194-3241` | a successor of its scope's last record is inserted exactly when it collides with nothing and is later; otherwise which error |
| `RecordTables.InsertAllExactlyWhen` | `backend/app/persistence/postgres/repositories.py:3194-3241` | successors of different scopes are inserted exactly when none collides, with the table or among them, and each is later than what it supersedes; otherwise which error |
| `RecordTables.RecordsIdentified` | `backend/app/instruments/temporal_records.py:52-64` | two records the hash can tell apart share an identity exactly when scope, time, predecessor, row and provenance agree |
| `CatalogueStore.ItemsPlannedExactlyWhen` | `backend/app/services/catalogue_ingestion_service.py:352-377` | the items are planned exactly when each instrument has one version and no key is bound elsewhere |
| `CatalogueStore.AcceptedExactlyWhen` | `backend/app/services/catalogue_ingestion_service.py:209-284` | an attempt is accepted exactly when its key is new, its clock and predecessor are right, its items are consistent, it is later than every leaf it supersedes and no record of it collides |
| `CatalogueStore.CommitKeepsStore` | `backend/app/services/catalogue_ingestion_service.py:209-284` | one attempt: every scope stays one chain; accepted, it ends exactly the touched chains with the plan; else nothing changes |
| `CatalogueStore.StoreStaysValid` | `backend/app/services/catalogue_ingestion_service.py:209-284` | over any attempts, with any clock, scopes stay chains and no record or run is lost |
| `CatalogueStore.KeyNeverMoves` | `backend/app/services/catalogue_ingestion_service.py:358-377` | a provider key never moves to another instrument |
| `CatalogueStore.ReplayReturnsOriginal` | `backend/app/services/catalogue_ingestion_service.py:211-228` | a replayed key returns the original run and adds nothing; another command under it is a conflict |
| `CatalogueStore.PredecessorUsedOnce` | `backend/app/services/catalogue_ingestion_service.py:331-339` | a named predecessor is accepted at most once |
| `CatalogueStore.PastAnswersUnchanged` | `backend/app/services/catalogue_ingestion_service.py:209-284` | what was known before an attempt stays what it was |
| `CatalogueStore.RecommitIsUnchanged` | `backend/app/services/catalogue_ingestion_service.py:419-437` | committing the same items again finds every one unchanged |
| `CatalogueOutcomes.LastIsNewest` | `backend/app/persistence/postgres/repositories.py:2668-2680` | the last record of a scope, by position: none of the scope follows it |
| `CatalogueOutcomes.CategoriesExactly` | `backend/app/services/catalogue_ingestion_service.py:419-437` | every transition of an accepted receipt, by the store before: added exactly without a version record of the instrument, metadata changed exactly when the last one has other metadata, mapping changed exactly when it has the same and the key has no mapping record, unchanged exactly otherwise |
| `CatalogueOutcomes.ReceiptIsOfCommand` | `backend/app/services/catalogue_ingestion_service.py:209-284` | the run an accepted attempt leaves carries its command, its clock and its predecessor |
| `CatalogueOutcomes.RefusedExactlyFor` | `backend/app/services/catalogue_ingestion_service.py:189-416` | each refusal happens exactly for its reason, the first there is in the order of the source, in terms of the store and the attempt |
| `CatalogueOutcomes.RefusalHasReason` | `backend/app/services/catalogue_ingestion_service.py:189-416` | every refusal has such a reason, a refused write included |
| `CatalogueOutcomes.ContentNeverChanges` | `backend/app/persistence/postgres/repositories.py:3194-3212` | over any attempts one row identity never has two contents |
| `CatalogueRepository.Repository.TransitItems` | `backend/app/services/catalogue_ingestion_service.py:352-397` | the item loop with its dictionary computes the transition plan |
| `CatalogueRepository.Repository.BuildTransitionPlan` | `backend/app/services/catalogue_ingestion_service.py:326-416` | predecessor checks and item checks in the order of the source |
| `CatalogueRepository.Repository.Stage` | `backend/app/services/catalogue_ingestion_service.py:243-280` | the staged writes are those of the commit |
| `CatalogueRepository.Repository.Commit` | `backend/app/services/catalogue_ingestion_service.py:189-284` | one attempt on the live store is the commit step |
| `CatalogueRepository.AddVersions` | `backend/app/services/catalogue_ingestion_service.py:251-259` | each version is added once, at its first item |
| `CatalogueRepository.AddMappings` | `backend/app/services/catalogue_ingestion_service.py:260-264` | every mapping is added in order |
| `CataloguePlan.ScanProfile` | `backend/app/instruments/providers/upstox_catalogue.py:241-268` | the scan succeeds exactly when a row names the underlying, the first one passes its checks and all have one content; otherwise which error |
| `CataloguePlan.PassRows` | `backend/app/instruments/providers/upstox_catalogue.py:101-147` | the pass succeeds exactly when accepted rows project and differ in key and duplicates name theirs |
| `CataloguePlan.BuildPlan` | `backend/app/instruments/providers/upstox_catalogue.py:85-216` | a plan is built exactly when the scan and the pass succeed and the effective interval is not empty; scan errors come first, the interval last |
| `CataloguePlan.RowsAreConserved` | `backend/app/instruments/providers/upstox_catalogue.py:204-216` | physical rows are accepted ones, duplicates and excluded ones |
| `CataloguePlan.AcceptedContentsDiffer` | `backend/app/instruments/providers/upstox_catalogue.py:123-141` | accepted rows have different contents |
| `CataloguePlan.PlanAccountsForEveryRow` | `backend/app/instruments/providers/upstox_catalogue.py:101-216` | every row has its one outcome, in row order |
| `CataloguePlan.PlanItems` | `backend/app/instruments/providers/upstox_catalogue.py:159-216` | one item for each accepted row, sorted, no two with one provider key; each version names the catalogue and each mapping its version |
| `CataloguePlan.PaddedUnderlyingNotFound` | `backend/app/instruments/providers/upstox_catalogue.py:241-259` | an input: a padded underlying row that the pass would take and the scan does not find |
| `CataloguePlan.OneUnderlying` | `backend/app/instruments/providers/upstox_catalogue.py:241-268` | a file that can be planned has exactly one accepted underlying row, however often it is repeated |
| `CataloguePlanMeaning.StripsAround` | `backend/app/instruments/providers/upstox_catalogue.py:486-495` | a text is stripped to what is left without the spaces around it, a blank one to nothing |
| `CataloguePlanMeaning.PlanDisposes` | `backend/app/instruments/providers/upstox_catalogue.py:101-216` | the outcome of row i by its fields and the rows before it: excluded outside the profile, a duplicate of the first row of its content, accepted otherwise |
| `CataloguePlanMeaning.ScannedExactlyWhen` | `backend/app/instruments/providers/upstox_catalogue.py:241-268` | the scan by positions: some row names the underlying, the first is approved and all have one content; else which of these fails first |
| `CataloguePlanMeaning.PlanHasItems` | `backend/app/instruments/providers/upstox_catalogue.py:159-216` | one item for each accepted row and no other, with the row's own content, in order, under a catalogue of exactly their projections |
| `CatalogueIdentity.CatalogueIdentifiedUpToRecording` | `backend/app/instruments/catalogue.py:46-59` | two catalogues the hash can tell apart share an identifier exactly when they differ in recorded time only |
| `CatalogueIdentity.VersionIdentifiedUpToRecording` | `backend/app/instruments/identity.py:257-274` | two versions share an identifier exactly when they differ in system time only |
| `CatalogueIdentity.MappingIdentifiedUpToRecording` | `backend/app/instruments/identity.py:229-242` | two mappings share an identifier exactly when they differ in system time only |
| `CatalogueBinding.ReboundKeepsIds` | `backend/app/instruments/providers/upstox_catalogue.py:219-238` | a new recorded time keeps the identifiers of the catalogue, each version and each mapping, and their chain |
| `CatalogueBinding.BindRecordedAt` | `backend/app/instruments/providers/upstox_catalogue.py:219-238` | a binding is refused exactly for a record superseded by the new time or an item without its records' identifiers, at the first such item |
| `CatalogueBinding.BuiltPlanBinds` | `backend/app/instruments/providers/upstox_catalogue.py:219-238` | a plan that was built binds to any time, and the bound plan is the one that would have been built at that time |
| `Dictionaries.UniqueIndex` | `backend/app/market_data/point_in_time.py:505-519` | items are indexed in first-seen order, or refused when one identity has two contents |
| `CorrectionGraph.WalkFrom` | `backend/app/market_data/point_in_time.py:397-406` | the walk ends and reports exactly a start that lies on a cycle |
| `CorrectionGraph.RepeatIsStart` | `backend/app/market_data/point_in_time.py:397-406` | in a one-to-one graph the first event met twice is the start |
| `CorrectionGraph.CycleNeverEnds` | `backend/app/market_data/point_in_time.py:397-406` | a walk on a cycle never ends |
| `CorrectionGraph.Climb` | `backend/app/market_data/point_in_time.py:397-406` | climbing corrections of an acyclic graph ends at an uncorrected event |
| `OptionChain.CheckCorrection` | `backend/app/market_data/point_in_time.py:362-385` | the checks of one correction in order |
| `OptionChain.ContestedHasTwoSources` | `backend/app/market_data/point_in_time.py:386-396` | a target is ambiguous exactly when two corrections name it |
| `OptionChain.ResolveCorrectionGraph` | `backend/app/market_data/point_in_time.py:344-406` | accepted exactly when corrections fit, are one-to-one and acyclic; otherwise the error is the one with the least identity |
| `OptionChain.RaisesOneError` | `backend/app/market_data/point_in_time.py:344-406` | that specification determines the error |
| `OptionChain.WalkKeepsContract` | `backend/app/market_data/point_in_time.py:376-385` | chains of corrections stay on one contract |
| `OptionChain.NoContractLost` | `backend/app/market_data/point_in_time.py:321-341` | a contract with a visible quote keeps one that nothing supersedes |
| `OptionChain.LatestByContract` | `backend/app/market_data/point_in_time.py:321-328` | the pass keeps the entries of the specification |
| `OptionChain.LatestIsGreatest` | `backend/app/market_data/point_in_time.py:321-328` | an entry is the greatest remaining quote of its contract |
| `OptionChain.ReconstructOptionChain` | `backend/app/market_data/point_in_time.py:293-341` | the whole reconstruction, conflicts and errors included |
| `OptionChain.ChainOfQuery` | `backend/app/market_data/point_in_time.py:293-341` | a contract is in the chain exactly when it has a visible quote, with the greatest one nothing visible supersedes |
| `ChainMeaning.SelectsLastAssessment` | `backend/app/market_data/point_in_time.py:469-486` | the selected assessment is the last that applies, by time, then identity, the first listed of equals; none exactly when none applies |
| `ChainMeaning.VisibleIsSeen` | `backend/app/market_data/point_in_time.py:439-466` | a quote is visible exactly when it arrived in time, its references are in force at the query and the last assessment that applies accepts it |
| `ChainMeaning.EligibleIsCorrectable` | `backend/app/market_data/point_in_time.py:409-436` | a quote may be corrected exactly when it arrived in time and its references were in force when it was stamped and became available |
| `ChainMeaning.LaterIsRankedAbove` | `backend/app/market_data/point_in_time.py:489-502` | quotes are ordered by their rank, field by field |
| `ChainMeaning.ChainQuotes` | `backend/app/market_data/point_in_time.py:293-341` | an accepted chain by the records: a contract is in it exactly when a quote of it is seen, with the seen and uncorrected one that ranks above all others, once, in contract order |
| `ChainMeaning.ReconstructedExactlyWhen` | `backend/app/market_data/point_in_time.py:293-406` | a chain is reconstructed exactly when no two records of one identity differ and the seen corrections fit, name different quotes and do not go round |
| `OptionChain.NoLookAhead` | `backend/app/market_data/point_in_time.py:300-341` | late quotes and late assessments change neither the chain nor the error |
| `Sorting.SortSorts` | `backend/app/market_data/point_in_time.py:329-341` | the stable sort orders by its key |
| `Coordinator.MarketDataCoordinator.BeginSubscribe` | `backend/app/market_data/coordinator.py:46-66` | the first locked body and the call that follows |
| `Coordinator.MarketDataCoordinator.CompleteSubscribe` | `backend/app/market_data/coordinator.py:81-87` | the locked body after a successful call |
| `Coordinator.MarketDataCoordinator.FailSubscribe` | `backend/app/market_data/coordinator.py:67-80` | the locked body after a failed or cancelled call |
| `Coordinator.MarketDataCoordinator.Unsubscribe` | `backend/app/market_data/coordinator.py:94-106` | the locked body of an unsubscription and its call |
| `Coordinator.MarketDataCoordinator.CancelWaiter` | `backend/app/market_data/coordinator.py:88-92` | a cancelled waiter gives its queue back |
| `Coordinator.MarketDataCoordinator.ResumeWaiter` | `backend/app/market_data/coordinator.py:88-92` | a waiter of a resolved entry goes on |
| `CoordinatorProtocol.StepKeeps` | `backend/app/market_data/coordinator.py:46-106` | every step of every task keeps the protocol invariant |
| `CoordinatorProtocol.EveryRunIsSafe` | `backend/app/market_data/coordinator.py:46-106` | in every interleaving: a subscribing entry holds its creator, mapped entries have listeners, the map is within capacity, nobody waits on an entry whose call returned, and two subscriptions of a key are separated |
| `CoordinatorOutcomes.ResolvedByItsCall` | `backend/app/market_data/coordinator.py:62-89` | in every interleaving an entry is subscribed exactly when its call returned and failed exactly when that raised |
| `CoordinatorOutcomes.OutcomeExactlyWhenSettled` | `backend/app/market_data/coordinator.py:46-106` | in every interleaving a task has an outcome exactly when an event gave it that one: delivered when its call or that of its entry returned, refused when that raised or at capacity, cancelled when it was cancelled |
| `CoordinatorOutcomes.HeldExactlySinceJoined` | `backend/app/market_data/coordinator.py:46-106` | a queue is fed by an entry exactly when its task joined it, has not given it back and the call has not failed |
| `CoordinatorProtocol.CallEndsWaiting` | `backend/app/market_data/coordinator.py:67-89` | however a call ends, every task waiting on its entry may resume |
| `CoordinatorProtocol.QuietIsSettled` | `backend/app/market_data/coordinator.py:46-106` | with no call in flight every waiter may resume and every entry is subscribed |
| `CoordinatorProtocol.SubscribesSeparated` | `backend/app/market_data/coordinator.py:62-106` | between two subscription calls of a key stands a failure or an unsubscription |
| `LiveQuotes.HistoryDecides` | `backend/app/market_data/quote_store.py:14-36` | over any puts and marks, a key holds the first quote of its greatest sequence and is forced stale exactly when it was marked after it |
| `LiveQuotes.QuoteStore.Put` | `backend/app/market_data/quote_store.py:14-20` | a quote is stored exactly when it is newer, and is added to the history |
| `LiveQuotes.QuoteStore.CheckFreshness` | `backend/app/market_data/quote_store.py:25-33` | a key awaits exactly when nothing was put, and is fresh exactly when its newest quote is young and unmarked since |
| `LiveFeed.QueueHoldsNewest` | `backend/app/market_data/coordinator.py:160-171` | an unread queue holds exactly the newest messages that fit |
| `LiveFeed.SequencesIncrease` | `backend/app/market_data/coordinator.py:120-138` | while store and counters are in step every quote of a key is stored and its sequence grows by one for each |
| `LiveFeed.AheadIsStuck` | `backend/app/market_data/coordinator.py:120-138` | a key stored ahead of its counter is never updated again |
| `LiveFeed.FreshFeedCountsQuotes` | `backend/app/market_data/coordinator.py:108-138` | from an empty store a subscribed key's sequence is the number of its quotes, over any messages and transport changes |
| `LiveFeed.ListenerHears` | `backend/app/market_data/coordinator.py:108-171` | over any messages and transport changes, what a listener's queue holds and how far its key's sequence has grown |
| `LiveFeed.PublishKeys` | `backend/app/market_data/coordinator.py:116-119` | telling the listeners of some keys one key at a time is telling them all once |
| `LiveFeed.FeedReceiver.ReceiveMessage` | `backend/app/market_data/coordinator.py:108-138` | statuses, then the quotes of subscribed keys, as the feed specification |
| `LiveFeed.FeedReceiver.ReceiveTransport` | `backend/app/market_data/coordinator.py:140-158` | a lost or resumed connection marks every subscribed key stale and tells everybody |
| `ConnectionLifecycle.CheckEvent` | `backend/app/market_data/normalization/lifecycle.py:403-427` | the dictionary checks of one event decide whether it fits |
| `ConnectionLifecycle.ValidateConnectionSequence` | `backend/app/market_data/normalization/lifecycle.py:397-430` | exactly the histories are accepted; the error is that of the first event that does not fit |
| `ConnectionLifecycle.HistoryExtends` | `backend/app/market_data/normalization/lifecycle.py:397-430` | a history grows exactly by an event that fits |
| `ConnectionLifecycle.ClosedIsLast` | `backend/app/market_data/normalization/lifecycle.py:87-107` | nothing follows a closed connection |
| `ConnectionLifecycle.SessionsReconnect` | `backend/app/market_data/normalization/lifecycle.py:406-412` | every later session starts at connecting after a reconnecting one and is never returned to |
| `ConnectionLifecycle.SessionFollowsTable` | `backend/app/market_data/normalization/lifecycle.py:87-107` | within every session a state follows one that may precede it, the table read by its targets |
| `ConnectionLifecycle.AuthorizedAfterHandshake` | `backend/app/market_data/normalization/lifecycle.py:87-107` | an authorized event follows connecting and connected in its session |
| `SubscriptionLifecycle.ValidateSubscriptionSequence` | `backend/app/market_data/normalization/lifecycle.py:433-461` | accepted exactly when every scope is a legal path from nothing and every source scope is one rising session |
| `SubscriptionLifecycle.LegalExtends` | `backend/app/market_data/normalization/lifecycle.py:433-461` | a sequence grows legally exactly by an event that fits |
| `SubscriptionLifecycle.ContinuesExactlyWhen` | `backend/app/market_data/normalization/lifecycle.py:109-134` | a valid event continues a scope exactly when its state may follow, its mode fits and it is about the same |
| `SubscriptionLifecycle.PathIsLegalExactlyWhen` | `backend/app/market_data/normalization/lifecycle.py:433-461` | the legal paths of valid events, step by step |
| `SubscriptionLifecycle.EndIsLast` | `backend/app/market_data/normalization/lifecycle.py:109-134` | nothing of a scope follows its end |
| `SubscriptionLifecycle.ModeChangesOnlyOnRequest` | `backend/app/market_data/normalization/lifecycle.py:521-532` | where a mode changes: at a change request, or left out at an unsubscription request |
| `SubscriptionLifecycle.ModeRuleExactlyWhen` | `backend/app/market_data/normalization/lifecycle.py:521-532` | on a legal path the mode changes at change requests only exactly when every unsubscription request names its mode |
| `SubscriptionLifecycle.ModeRuleFails` | `backend/app/market_data/normalization/lifecycle.py:433-461` | an input: an accepted sequence whose mode changes without a change request |
| `SubscriptionLifecycle.ModeIsKept` | `backend/app/market_data/normalization/lifecycle.py:521-532` | without a change request the first mode is kept until it is given up |
| `BatchMembership.ValidateIdentityBatch` | `backend/app/market_data/normalization/lifecycle.py:470-486` | first occurrences in order and the repeated identities, sorted; refused on a conflict or when too long |
| `BatchMembership.DuplicatesRepeat` | `backend/app/market_data/normalization/lifecycle.py:470-486` | the duplicates are the identities that occur twice |
| `BatchMembership.OneOriginalEach` | `backend/alembic/versions/20260804_04_append_only_market_events.py:2598-2636` | as many originals as identities: no identity has two |
| `BatchMembership.AcceptedIsDedup` | `backend/alembic/versions/20260804_04_append_only_market_events.py:2551-2677` | an accepted table is the one de-duplication writes |
| `BatchMembership.DedupIsAccepted` | `backend/alembic/versions/20260804_04_append_only_market_events.py:2418-2460` | what de-duplication writes is accepted, up to ten thousand events |
| `BatchMembership.AcceptedExactlyDedup` | `backend/alembic/versions/20260804_04_append_only_market_events.py:2418-2677` | the column checks, the foreign key and the triggers accept exactly those tables with their counts |
| `BatchMembership.NormalizedOrderIsFirstSeen` | `backend/alembic/versions/20260804_04_append_only_market_events.py:3496-3593` | the observation trigger forces the order of first occurrences |
| `BatchMembership.UniqueEventsAreFirstSeen` | `backend/app/market_data/normalization/lifecycle.py:470-486` | which is the order of the unique events |
| `ImpliedVolatility.SolveImpliedVolatility` | `backend/app/options/implied_volatility.py:21-88` | which inputs are refused, what an unbracketed price returns, and that the loop returns the first midpoint within tolerance or the last one tried |
| `ImpliedVolatility.BracketHolds` | `backend/app/options/implied_volatility.py:73-87` | the bracket keeps the observed price between its ends and halves exactly |
| `ImpliedVolatility.RootStaysBracketed` | `backend/app/options/implied_volatility.py:73-87` | with a price that never falls every exact root stays bracketed or ties with the upper end |
| `ImpliedVolatility.LipschitzConverges` | `backend/app/options/implied_volatility.py:73-88` | with a Lipschitz price convergence is certain once the halved bracket times the slope is within tolerance |
| `Drawdown.MaximumDrawdown` | `backend/app/simulation/metrics.py:59-63` | the one-pass peak loop finds the largest fall over all earlier and later pairs |
| `Drawdown.SummarizeDrawdown` | `backend/app/simulation/metrics.py:51-63` | over the values of a run, and at least its loss |

## Left out

- Black-Scholes prices and Greeks, random path generation and volatility estimators: transcendental or library code; prices are an arbitrary non-negative function.
- Floating point rounding and the 28-digit decimal context: arithmetic is exact and only `money` rounds.
- Hashing, canonical JSON, identifier syntax and time zones: identities and instants are abstract values; times of records count from the first representable instant.
- Intents, simulation events, risk decision records and ledger timestamps: lists that are written and never read by the run.
- Entry checks on strikes and expiries of the pair: the model holds both contracts as one pair with one spread, volume and open interest.
- Strike selection and the synthetic chain: a minimum over a list.
- Raw frame batches (`identities.py`): the same single pass as the lifecycle batch, with sorted output.
- Clock.ValidatePathClock: timestamps are local dates and times of day, so the UTC offset check and the zone conversion are left out.
- StrategyRun.RunStrategy: the two option contracts and their prices are given with the configuration, because strike selection only picks them.
- Unrealized profit and the other sums of a run summary: direct expressions over results proved elsewhere.
- CatalogueRepository.Repository.TransitItems: items are given in provider-key order and the counts of their categories are left out, because they are sums over the transitions.
- CatalogueRepository.Repository.BuildTransitionPlan: disappeared keys and the counted difference are left out, because nothing in a commit depends on them.
- CatalogueRepository.Repository.Stage: artifact, instrument, outcome and membership rows are left out, because they are written once and never decide a later commit.
- CatalogueRepository.Repository.Commit: the recovery after a database error is left out, because under the provider lock it finds no other run and raises again.
- CataloguePlan.BuildPlan: the field checks of a row and what they give are one value of the row, and the row hash another; parsing, memberships and the field fingerprint are left out, because nothing else in a plan depends on them.
- Hash collisions of catalogue identifiers: the hash is any function of the identifying fields; that it does not collide is assumed only where a statement says so.
- Concurrent writers of the catalogue: a commit holds the provider lock, so it is one step.
- Provider subscription state: calls are awaited outside the lock and may finish out of order; only the order in which they start is claimed.
- Times, error codes and the aggregated status of the live coordinator, and the parsing of quotes and statuses: direct assignments.
- Text identifiers are compared by an abstract rank in the option chain, which stands for their order.
- Lifecycle reason codes, instrument limits per mode, event times and the normalizers, which copy every field the validators read.
- Hash patterns and enumerations among the database checks, and the join from observation rows to raw events: the foreign keys guarantee it and the model takes it as a map.
- The routes, streams, tokens, provider clients, file retention, restore checks and the user interface: input and output.
- EngineExits.EveryRunExitsForFirstReason: is about runs whose three instruments differ, because the worth of a run is told there by instrument; `EngineExits.ExitIsFirstCall` is about every exit check.
- Ledger.PortfolioLedger: entries carry no timestamps or position identifiers, because nothing is computed from them.
- CoordinatorProtocol.CallEndsWaiting: says that a waiter may resume, not that the scheduler runs it, because fairness is the event loop's.
