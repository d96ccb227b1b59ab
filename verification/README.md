# FinAnalytics core: a verified model

This project states and proves, in Dafny 4.11, what the hard parts of FinAnalytics do: the order
dispatcher, the market-data pipeline, the cursor and resume protocols, the two source-rewriting
scripts, the walk-forward calibration, the trading-account use cases and the policy-rate join.
`dafny verify dfyconfig.toml` checks all of it. Nothing here runs the original programs.

Code that changes state step by step is modelled as classes and methods with loops, each proved
against a specification function or a direct property; what is promised about whole runs is then
proved about those specifications. SQL aggregates are folds and keyed maps. What such a specification
computes is also told without it, from the fields, characters or rows it starts from (`ColorSpots`,
`TradedRows`, `Indicators`, `DispatchEnds`, `MigrationSteps`, `Di1Turns`, `Calibration`, `AlertPlaces`,
`AccountFields`, `PolicyRates`), and proved to be that on all inputs.

| file | subject |
|---|---|
| `ColorMap.dfy`, `ColorLayout.dfy`, `ColorBlocks.dfy`, `ColorSpots.dfy`, `ColorMeaning.dfy`, `ColorRewrite.dfy`, `Text.dfy` | literal colours rewritten to CSS variables outside `:root{...}`: the map, where each token goes, blocks, which places are rewritten told from their characters, what a text means to the script, the script |
| `CssTokens.dfy`, `CssScans.dfy`, `CssDamage.dfy`, `CssReading.dfy`, `ThemeColours.dfy`, `CssCases.dfy` | what CSS reads: tokens, where they end in the rewritten text, which are damaged, when the reading is kept, the theme, texts around one colour |
| `BracketMatch.dfy`, `AlertRewrite.dfy`, `AlertPlaces.dfy` | matching brackets past strings and escapes; splicing `alert(...)` calls; the result place by place |
| `OhlcBars.dfy`, `OhlcPrices.dfy`, `BarMeanings.dfy` | the bucket fold and the tower law; rounding, envelope and vwap; what a bar says of its rows |
| `OhlcRebuild.dfy`, `OhlcResample.dfy`, `DailyBars.dfy`, `TradedRows.dfy` | the three tables built on it; what their rows say of the trades |
| `Features.dfy`, `Indicators.dfy`, `FeatureWindows.dfy` | the daily technical indicators; what each says of the bars; what a run over a window of bars knows of them |
| `OrderIds.dfy`, `IdTexts.dfy`, `Dispatcher.dfy`, `DispatchFields.dfy`, `DispatchEnds.dfy`, `DispatchReports.dfy`, `SignalFlags.dfy`, `PairDispatch.dfy` | order ids and their texts; dispatch as a step machine and as a pipeline; what is sent and what one dispatch leaves, field by field; what its reports say, exits, the sent flag; pairs |
| `Di1Worker.dfy`, `Di1Loop.dfy`, `Di1Turns.dfy`, `Di1Stalls.dfy`, `Di1Losses.dfy` | one contract's cursor; the poll loop over all contracts; what a turn publishes and counts; rows that stall it; rows that are lost |
| `Migration.dfy`, `MigrationSteps.dfy`, `MigrationPaging.dfy`, `MigrationRuns.dfy` | the paged copy that resumes after the last day copied; what a run copies row by row; pages whose order may change inside a day; many runs |
| `WalkForward.dfy`, `Calibration.dfy`, `LookAhead.dfy` | targets, walk-forward scores, alignment and the threshold grid; the calibration told from the history; which later rows a score reads |
| `Accounts.dfy`, `AccountFields.dfy`, `AccountRaces.dfy` | the account repository and its use cases; what an account shows after them; their interleavings |
| `CopomJoin.dfy`, `PolicyRates.dfy` | the as-of join of policy rates to documents; the rate of a date told from the series |
| `Options.dfy`, `Division.dfy` | a value that may be missing; quotients and remainders |

## Where the code does not do what it is for

Each of these is a lemma with a concrete input, an exact condition, or both.

- A dispatch that reports failure leaves an order behind exactly if its intent was saved and its POST
  was taken but raised or came back without an id (`DispatchReports.FailureHidesAnOrderIff`,
  `DispatchReports.ReportsMatchTheAgent`; an input: `DispatchReports.FailureMayHideAnOrder`). A
  pair's report is right exactly if no POST raises after it was taken
  (`PairDispatch.Agent.DispatchPair`).
- A dispatch that fails clears the sent flag of its signal even where another dispatch of the signal
  has an order that stands (`SignalFlags.ClearedByAnother`, a run: `SignalFlags.SecondDispatchClears`);
  the auto trader gives every dispatch a signal row of its own (auto_trader_worker.py:344-368), and
  then the flag is clear only if its one write has not taken effect
  (`SignalFlags.ClearThoughOrderedIff`).
- A dispatch reports success for an order whose exits were refused
  (`DispatchReports.NakedIffOcoRefused`).
- Order ids are injective exactly on tickers and actions without a colon
  (`OrderIds.RawIdDeterminesSignal`).
- A tick that the cursor passes unpublished stays unpublished (`Di1Losses.PassedForGood`). Ticks are
  passed exactly if a turn stops, at the page limit or a failure, between rows of one timestamp, or
  rows arrive at a time the cursor has already come to (`Di1Losses.NothingIsLostIff`; inputs:
  `Di1Losses.FailedSendLosesARow`, `Di1Losses.PageLimitLosesARow`, `Di1Losses.LateTieIsLost`,
  `Di1Losses.LateRowIsLost`).
- One row that cannot be converted ends the poll before the contracts after it
  (`Di1Stalls.ReachedIffNoneRaises`, `Di1Stalls.BadRowStarvesTheRest`) and holds its own contract's
  cursor for as long as no other row of its timestamp is published
  (`Di1Stalls.BadRowHoldsTheCursorIff`); a late row of that timestamp releases it and the bad row is
  passed (`Di1Stalls.LateTieReleasesTheCursor`).
- A migration orders its pages by day alone, so a page that begins inside a day can copy a row again
  and leave out another, with the right count (`MigrationRuns.RowsAreCopiedOnceIff`, an input:
  `MigrationRuns.TwoRowsOfOneDay`); one resumed after a crash inside a day never copies the rest of
  that day (`MigrationRuns.FinishedRunIsExactIff`, `MigrationRuns.FinishedRunMissesOnlySplitDays`).
- A resample with `--since` damages the bucket the date cuts, unless the interval divides a day
  (`OhlcResample.RerunHarmlessIffBoundary`, `OhlcResample.DatesAreBoundaries`).
- An incremental feature run erases the 50- and 200-bar averages of the days it covers
  (`Features.IncrementalErasesLongAverages`), and leaves the row of a full run only under the
  conditions of `FeatureWindows.IncrementalIsFullIff`.
- The colour script promises to replace only exact theme colours (refactor_colors_to_vars.py:3). It
  replaces six digits wherever they stand: `#00e67633` becomes `var(--green)33`, `solid#00e676` becomes
  `solidvar(--green)`, and colours in names, strings, urls and selectors are replaced too. When what
  CSS reads is kept is said exactly by `CssReading.ReadingKeptIff`; inputs for each way it is not are in
  `ThemeColours.SpoiledTexts`. Colours with an opacity are in use, though so far outside style blocks
  (marketdata.html:386).
- A theme variable defined outside a `:root{...}` block is made to refer to itself
  (`ThemeColours.DefinitionNamesItself`).
- A true range is not the day's reach where high and low are the wrong way round and the close before
  lies strictly between them, and only there (`Indicators.TrueRangeIsReach`).
- The clipping of the chance of a gain to 1 and 99 per cent never acts (`Calibration.ChanceIs`).
- RSI mirroring fails exactly where nothing has moved: both series then read 100
  (`Features.RsiMirrors`).
- A `:root{` that is never closed does not protect its colours
  (`ColorBlocks.UnclosedRootIsRewritten`).
- An `alert` call inside another's argument is written twice (`AlertRewrite.RestoredIffApart`,
  `AlertRewrite.NestedCallIsRepeated`).
- The walk-forward training labels reach `horizon - 1` days past the training's end: a score reads
  later closes than its own exactly if there is a model and its training's end plus the horizon is
  more than one past the scored row (`LookAhead.ReadsNoLaterRowIff`).
- No account is left active if a removal that looked before an activation writes after it, or if the
  account being activated is removed between the activation's look-up and its write
  (`AccountRaces.ActiveIsLostIff`, `AccountRaces.RemovalCanTakeTheActive`,
  `AccountRaces.ActivationCanLoseTheActive`).

## Where code and documentation differ

The model follows the code.

- `auto_trader_dispatcher.py` says ids are truncated to 64 characters; longer ones are replaced by a
  hash. Its example of a pair id stops at the minute; `isoformat` also writes seconds and offset.
- `populate_daily_bars.py` says `--source auto` tries ticks first; it tries the 1-minute bars first.
- `di1_realtime_worker.py` describes a set of published (ticker, trade number) pairs and a query in
  descending order; it has neither, only a cursor and an ascending query.
- `accounts.py` promises that the active account is unique; that it cannot be removed holds only for
  use cases that do not interleave.

## Model

| member | source | states |
|---|---|---|
| ColorMap.ColorMapIsValid | scripts/refactor_colors_to_vars.py:15-32 | the sixteen hex keys are distinct seven-character colours and the sixteen variables are distinct, so the map can be inverted |
| ColorLayout.FindBalancedClose | scripts/refactor_colors_to_vars.py:40-52 | the loop returns the first `}` at which the braces counted from the start balance, or -1 exactly when there is none |
| ColorRewrite.SkipRanges | scripts/refactor_colors_to_vars.py:57-63 | a position is in a skip range exactly if it lies in some block: `:root` in any ASCII case, only white space up to a brace, and on to the first brace at which the depth counted from that one is zero again |
| ColorRewrite.MatchColour | scripts/refactor_colors_to_vars.py:35-35 | trying the alternation in order finds the colour at a position, in any letter case, or nothing |
| ColorRewrite.ReplaceOutsideRoot | scripts/refactor_colors_to_vars.py:55-79 | position by position: where the characters of a map colour stand in any case outside every such block, its variable; nothing on the rest of that colour; any other character itself; and the count is the number of those places |
| ColorSpots.BlankIffSpace | scripts/refactor_colors_to_vars.py:37-37 | white space is 29 code points, listed |
| ColorSpots.RootBraceExact | scripts/refactor_colors_to_vars.py:37-37 | a match starts at `i` and ends at brace `b` exactly if `:root` stands at `i` in any ASCII case, a brace at `b`, and only white space between |
| ColorSpots.BlockEndExact | scripts/refactor_colors_to_vars.py:40-63 | a block that starts at `i` ends at `c` exactly if some brace opens it and `c` is the first at which the depth from that brace is zero again |
| ColorSpots.ProtectedExact | scripts/refactor_colors_to_vars.py:57-72 | a position is protected exactly if it lies in such a block |
| ColorSpots.ShownExact | scripts/refactor_colors_to_vars.py:64-79 | the token-by-token rewriting and its count are those read position by position |
| ColorSpots.BlockTextIsKept | scripts/refactor_colors_to_vars.py:5-5 | wherever it stands in a text, `:root` in any case, white space, and a body of nested braces between braces is in the rewritten text as it was, whatever is around it |
| ColorBlocks.RootBlockText | scripts/refactor_colors_to_vars.py:5-5 | every balanced `:root{...}` block is copied character by character |
| ColorBlocks.RootBlockExtent | scripts/refactor_colors_to_vars.py:57-63 | the copy of a block is again a balanced block, of the same extent |
| ColorBlocks.NoNewRootBlock | scripts/refactor_colors_to_vars.py:57-79 | every balanced block of the rewritten text is the image of one of the original: no splice makes a new one |
| ColorBlocks.ColourIsProtected | scripts/refactor_colors_to_vars.py:68-72 | every colour still written out in the rewritten text, splice boundaries included, lies in a protected block of it |
| ColorBlocks.ColourKeptIffProtected | scripts/refactor_colors_to_vars.py:68-77 | a colour survives the rewriting exactly if a balanced `:root` block holds it |
| ColorBlocks.UnclosedRootIsRewritten | scripts/refactor_colors_to_vars.py:57-63 | a `:root{` that is never closed protects nothing: the colour defined after it is replaced, for every entry of the map |
| ColorMeaning.MeaningPreserved | scripts/refactor_colors_to_vars.py:35-79 | in the script's own reading, where the seven characters of a theme colour are that colour wherever they stand: resolving every `var(--x)` to its colour gives the same token sequence before and after, for every text and every valid map |
| CssReading.ReadingKeptIff | scripts/refactor_colors_to_vars.py:1-6 | what CSS reads (comments, strings, urls, names with escapes, hashes as colours or, in a selector, ids) is kept exactly if no replaced colour stands in a string, a url or a name, goes on with a character of a name, or follows a name, a lone `#` or `@` that is no replaced colour, and none stands in a selector |
| ThemeColours.NameBefore | scripts/refactor_colors_to_vars.py:68-77 | any name before any colour of the map: the variable joins the name and the reading is not kept |
| ThemeColours.NameAfter | scripts/refactor_colors_to_vars.py:68-77 | any character of a name after any colour of the map, a digit included: likewise |
| CssCases.CharacterBefore | scripts/refactor_colors_to_vars.py:68-77 | one character before any colour of the map: the reading is lost exactly to a letter, digit, `-`, `_`, a character beyond ASCII, `@`, a backslash or a quote |
| CssCases.CharacterAfter | scripts/refactor_colors_to_vars.py:68-77 | one character after it: exactly to a letter, digit, `-`, `_`, a character beyond ASCII or `{` |
| CssCases.StringEnds | scripts/refactor_colors_to_vars.py:68-77 | a quote and one character before the colour: the reading is kept exactly if that character ends the string, as the same quote and three newlines do |
| CssCases.DeclarationEnds | scripts/refactor_colors_to_vars.py:68-77 | one character that belongs to no name between a colour and `{`: the reading is kept exactly if it is `;` or `}`, which end the declaration, or a quote, which hides the brace |
| CssCases.UrlAround | scripts/refactor_colors_to_vars.py:68-77 | three letters and parentheses around the colour: the reading is lost exactly to `url`, in any case |
| CssCases.QuotedUrl | scripts/refactor_colors_to_vars.py:68-77 | in a quoted url the colour stands in a string, behind a parenthesis too |
| CssCases.CommentCloses | scripts/refactor_colors_to_vars.py:68-77 | a backslash does not keep a comment open: a name after it takes the colour |
| CssCases.InComment | scripts/refactor_colors_to_vars.py:68-77 | a colour in a comment changes nothing that is read |
| ThemeColours.MapFollowsTheSheet | scripts/refactor_colors_to_vars.py:15-32 | each colour of the map stands for the variable that the theme's style sheet (theme.css:18-41) defines as that colour, in either case |
| ThemeColours.MapCoversTheSheet | scripts/refactor_colors_to_vars.py:15-32 | every colour variable of that style sheet is in the map but `--blue` |
| ThemeColours.SpoiledTexts | scripts/refactor_colors_to_vars.py:15-79 | six texts whose reading the shipped map changes, one for each way: `solid#00e676`, `#00e676-x`, `#00e67633`, a string, a url, a selector |
| ThemeColours.DefinitionNamesItself | scripts/refactor_colors_to_vars.py:5-6 | a definition of `--green` outside a `:root` block is rewritten to refer to itself |
| ColorBlocks.SecondRunFindsNothing | scripts/refactor_colors_to_vars.py:68-79 | a second run makes zero replacements and returns its input |
| ThemeColours.ThemeRewriteIsSafe | scripts/refactor_colors_to_vars.py:15-79 | for the map the script ships, over every text: the script's reading is kept, the CSS reading exactly under the condition of CssReading.ReadingKeptIff, and a second run makes no replacement and changes nothing |
| OhlcBars.BucketNested | scripts/resample_ohlc.py:45-45 | the wide bucket of a time is the wide bucket of its narrow bucket, where the narrow width divides the wide one |
| OhlcBars.Tower | scripts/resample_ohlc.py:40-68 | bars of width n bucketed again to width n*k are the bars of width n*k of the same rows: open, high, low, close, volume, trades |
| OhlcBars.BarsListTheTable | scripts/resample_ohlc.py:44-63 | the running fold over time-ordered rows lists exactly the GROUP BY table, each bucket once and in order |
| OhlcBars.TowerOfTables | scripts/resample_ohlc.py:44-63 | the same tower law for the GROUP BY tables themselves |
| BarMeanings.BucketIs | scripts/resample_ohlc.py:45-45 | a time's bucket is the multiple of the width at most a width before it |
| BarMeanings.GroupRowSpans | scripts/resample_ohlc.py:44-53 | a bucket has a row exactly if rows fall into it; the row has the first open, the last close, the greatest high, the least low and the sums of the rows at its times |
| BarMeanings.VwapIsMean | scripts/resample_ohlc.py:54-57 | the vwap times the bucket's volume is the sum of close times volume over its rows, or without volume the vwap times their number the sum of the closes |
| TradedRows.RoundsExactly | scripts/rebuild_ohlc_1m_from_history.py:90-93 | the cast gives a number of four decimals within 0.00005 of the price, the one away from zero of two as near, and no other number is that |
| OhlcPrices.RoundingCommutes | scripts/rebuild_ohlc_1m_from_history.py:90-93 | rounding prices to four decimals before or after aggregating gives the same bars |
| OhlcPrices.EnvelopeKept | scripts/resample_ohlc.py:48-51 | low <= open, close <= high is kept by any aggregation |
| OhlcPrices.VwapWithinRange | scripts/resample_ohlc.py:54-57 | for volumes that are not negative the vwap, both branches of the CASE, lies between the bucket's low and high |
| OhlcPrices.VwapEscapesIff | scripts/resample_ohlc.py:54-57 | whatever the volumes, where they add up to more than 0: the vwap falls below the low (rises above the high) exactly if the closes' distances from it, weighted by volume, add up to less (more) than 0 |
| OhlcPrices.NegativeVolumeEscapes | scripts/resample_ohlc.py:54-57 | two rows, one of negative volume, whose vwap is below their low |
| OhlcRebuild.QueryAt | scripts/rebuild_ohlc_1m_from_history.py:85-105 | the query over one day yields, for each selected minute, the bar of the whole history's ticks of that minute, and nothing else |
| OhlcRebuild.RebuildAt | scripts/rebuild_ohlc_1m_from_history.py:108-123 | one rebuild, key by key: selected keys end with their proper row (a foreign row stays, else the aggregated bar, else nothing), no other key changes |
| TradedRows.InSessionIs | scripts/rebuild_ohlc_1m_from_history.py:100-101 | the session filter admits exactly the times from 13:00 up to 21:00 of the first five days of weeks counted from a Monday |
| TradedRows.MinuteBarIs | scripts/rebuild_ohlc_1m_from_history.py:85-105 | a minute of a ticker has a bar exactly if trades fall into it in session; its prices are the rounded price of a trade none precedes, of a dearest, of a cheapest and of one none follows, by (date, number), its volume and count those of its trades |
| TradedRows.RebuiltRows | scripts/rebuild_ohlc_1m_from_history.py:76-123 | after a rebuild of a day, for one ticker or all: a key of that day not held by another source has a row exactly if trades fall into its minute, and that row is theirs in that sense; every other key is as it was |
| OhlcRebuild.ForeignRowsUntouched | scripts/rebuild_ohlc_1m_from_history.py:77-83 | rows of any other source are neither changed, removed nor created by a rebuild |
| OhlcRebuild.RebuildIdempotent | scripts/rebuild_ohlc_1m_from_history.py:108-123 | rebuilding a day twice equals rebuilding it once |
| OhlcRebuild.RunAllAt | scripts/rebuild_ohlc_1m_from_history.py:161-178 | any rebuilds in any order and with repetition: the keys some run selects hold their proper row, others are as before |
| OhlcRebuild.SameSelectionSameTable | scripts/rebuild_ohlc_1m_from_history.py:161-178 | runs that select the same keys leave the same table, so order, retries and grouping by day do not matter |
| OhlcRebuild.PerTickerEqualsAll | scripts/rebuild_ohlc_1m_from_history.py:110-115 | rebuilding ticker by ticker equals the all-ticker rebuild exactly if no key outside the list would have changed |
| OhlcRebuild.RetryCompletes | scripts/rebuild_ohlc_1m_from_history.py:161-178 | a range run with failed days, then a run over the failed ones, leaves the table of one run without failures |
| OhlcRebuild.Database.DeleteRows | scripts/rebuild_ohlc_1m_from_history.py:77-83 | the rows of this source in the range and of the ticker go, no other, and the count is how many |
| OhlcRebuild.Database.InsertRows | scripts/rebuild_ohlc_1m_from_history.py:85-105 | rows of free keys are added, taken keys stay, and the count is how many were added |
| OhlcRebuild.Database.RebuildDay | scripts/rebuild_ohlc_1m_from_history.py:108-123 | the table becomes the rebuilt one, whose rows TradedRows.RebuiltRows tells from the trades, and inserted minus deleted is its change of size |
| OhlcRebuild.Database.TryDay | scripts/rebuild_ohlc_1m_from_history.py:164-178 | a day that raises leaves the table as it was, any other is rebuilt |
| OhlcRebuild.Database.RebuildDays | scripts/rebuild_ohlc_1m_from_history.py:134-185 | the loop over days with any failing set ends with the other days rebuilt, and the totals account for the table's size |
| OhlcResample.ResampleFromBoundary | scripts/resample_ohlc.py:59-63 | from a date on a bucket boundary the statement produces exactly the later rows of a full run |
| OhlcResample.RerunFromBoundary | scripts/resample_ohlc.py:59-67 | if the rows before the boundary did not change, a rerun from it leaves the table of a full rerun |
| OhlcResample.CutBucketIsLost | scripts/resample_ohlc.py:61-67 | off a boundary a rerun replaces the cut bucket's bar by a bar of its later part |
| OhlcResample.RerunHarmlessIffBoundary | scripts/resample_ohlc.py:59-67 | rerunning with `--since` is harmless for every table exactly if the date is a bucket boundary |
| OhlcResample.DatesAreBoundaries | scripts/resample_ohlc.py:115-131 | every date is a boundary exactly for the intervals that divide a day's 1440 minutes |
| OhlcResample.RunJobsAt | scripts/resample_ohlc.py:149-169 | any jobs in any order and with repetition: each slot that ran holds what its rows give, every other is as before |
| OhlcResample.RunAgain | scripts/resample_ohlc.py:64-67 | the same jobs in any order and number leave the same table, and upserting all of them again changes nothing |
| TradedRows.ResampledSlots | scripts/resample_ohlc.py:40-68 | after one statement: a slot of the ticker and interval into which rows at or after `since` fall spans those rows and holds their weighted mean, any other slot is as it was |
| OhlcResample.Warehouse.ResampleOne | scripts/resample_ohlc.py:152-169 | one statement in its transaction, with dry run and rollback, and its row count |
| OhlcResample.Warehouse.ResampleTicker | scripts/resample_ohlc.py:150-169 | the loop over one ticker's intervals performs exactly the jobs that did not fail |
| OhlcResample.Warehouse.ResampleAll | scripts/resample_ohlc.py:149-169 | the nested loops perform exactly the ticker and interval pairs that did not fail |
| DailyBars.MinuteRowsAreTheTable | scripts/rebuild_ohlc_1m_from_history.py:85-105 | the rows the daily query reads are the minute bars of the history, each once, in order |
| DailyBars.DayThroughMinutes | scripts/populate_daily_bars.py:58-73 | a day aggregated from rounded minute bars is the rounded day of the ticks themselves |
| DailyBars.DailyPathsAgree | scripts/populate_daily_bars.py:39-73 | for a day whose ticks all pass the session filter both paths agree on high, low, qty and trades up to the rounding, and on open (close) exactly if the first (last) timestamp's price is unambiguous |
| DailyBars.DailyTable.PopulateTicker | scripts/populate_daily_bars.py:99-173 | source choice, price filter, dry run and the upsert loop: the new table and the count returned |
| DailyBars.UpsertedAt | scripts/populate_daily_bars.py:75-83 | only days of this ticker and exchange change, each to a row that was taken |
| TradedRows.PopulatedDays | scripts/populate_daily_bars.py:99-173 | after a ticker is populated: a day of a row that the preference and the minimum price let through holds such a row, any other day is as it was |
| OrderIds.IsoMinuteInjective | src/finanalytics_ai/workers/auto_trader_dispatcher.py:49-50 | two instants are written alike exactly if they agree up to the minute, offset included |
| OrderIds.RawIdDeterminesSignal | src/finanalytics_ai/workers/auto_trader_dispatcher.py:51-51 | an un-hashed id belongs to one signal exactly if its ticker and action hold no colon |
| OrderIds.HashedIsNotRaw | src/finanalytics_ai/workers/auto_trader_dispatcher.py:52-55 | a hashed id is never the raw id of any signal |
| OrderIds.OrderIdsEqual | src/finanalytics_ai/workers/auto_trader_dispatcher.py:42-55 | ids are equal exactly if both are raw and name the same strategy, ticker, action and minute, or both are hashed with one digest; none exceeds 64 characters |
| OrderIds.OrderIdIdempotent | src/finanalytics_ai/workers/auto_trader_dispatcher.py:45-48 | signals of the same minute get the same id |
| OrderIds.RobotIsNotPair | src/finanalytics_ai/workers/auto_trader_dispatcher.py:392-412 | no id of a single order is an id of a pair's leg |
| OrderIds.LegIdsDiffer | src/finanalytics_ai/workers/auto_trader_dispatcher.py:398-412 | a pair's two legs share an id exactly if both are hashed to one digest |
| OrderIds.LegIdsEqual | src/finanalytics_ai/workers/auto_trader_dispatcher.py:392-412 | for pair keys without colons, ids of legs are equal exactly if both are raw and name the same pair, leg, action and minute, or both are hashed with one digest; none exceeds 64 characters |
| IdTexts.MinuteReads | src/finanalytics_ai/workers/auto_trader_dispatcher.py:49-50 | the text of a minute, character by character: year, month, day, `T`, hour, minute, seconds 00, and the offset with its sign if there is one |
| IdTexts.DecimalReads | src/finanalytics_ai/workers/auto_trader_dispatcher.py:51-51 | a strategy id is written with its digits, no zero before them, behind a minus sign where it is negative |
| Dispatcher.NextSound | src/finanalytics_ai/workers/auto_trader_dispatcher.py:281-386 | every step of any dispatch, with any failure of the database or of a POST, keeps the whole invariant of rows, agent and dispatches in flight |
| Dispatcher.RunsAreSound | src/finanalytics_ai/workers/auto_trader_dispatcher.py:281-386 | the invariant holds after every interleaving of any number of dispatches, crashed ones included |
| Dispatcher.EveryOrderIsAudited | src/finanalytics_ai/workers/auto_trader_dispatcher.py:285-299 | every order the agent accepted has its own intent row with the same id, ticker, side, quantity, type, price and signal |
| Dispatcher.SentSignalsWereOrdered | src/finanalytics_ai/workers/auto_trader_dispatcher.py:324-348 | a signal is marked sent only with an id the agent returned for one of its orders |
| Dispatcher.SentIntentsHoldOneOutcome | src/finanalytics_ai/workers/auto_trader_dispatcher.py:317-343 | an intent with `sent_at` holds exactly one of local id and error, an unsent one neither, and the id is one the agent returned |
| Dispatcher.OcosReverseOrders | src/finanalytics_ai/workers/auto_trader_dispatcher.py:350-367 | each OCO has the opposite side and the quantity of one accepted order, and no order gets two |
| DispatchFields.RunsCarryRequests | src/finanalytics_ai/workers/auto_trader_dispatcher.py:257-367 | over any interleaving, field by field: every intent row, every order at the agent and every pair of exits is of a dispatch that has started and says what its request asks for, with the id of its strategy, ticker, upper-case side and minute, a price of -1 where there is none, and a stop limit one percent past the stop |
| DispatchFields.OrdersShareIdIff | src/finanalytics_ai/workers/auto_trader_dispatcher.py:281-283 | over any interleaving: two orders whose requests have tickers and sides without colons have one id exactly if the requests have one strategy, ticker, side up to case, and minute, or both ids are hashed to one digest |
| DispatchReports.FailureHidesAnOrderIff | src/finanalytics_ai/workers/auto_trader_dispatcher.py:281-386 | one dispatch, from any table and agent and with any failures: it ends without success and leaves an order behind exactly if its intent was seen to be saved and its POST was taken but raised or came back without an id |
| DispatchReports.ReportsMatchTheAgent | src/finanalytics_ai/workers/auto_trader_dispatcher.py:278-386 | over any interleaving: a dispatch that reports success has its order at the agent under the id it reports; one that reports no intent owns no order; one that reports another failure owns one exactly if its POST was taken and raised or came back without an id |
| DispatchReports.CrashStopsForGood | src/finanalytics_ai/workers/auto_trader_dispatcher.py:257-386 | a dispatch that stops between two calls leaves the tables and the agent as they are, and has then the orders it had, whatever other dispatches do |
| DispatchReports.FailureMayHideAnOrder | src/finanalytics_ai/workers/auto_trader_dispatcher.py:316-322 | the input: a POST that times out after the agent took the order, from any request |
| SignalFlags.SentIsLastMark | src/finanalytics_ai/workers/auto_trader_dispatcher.py:152-168 | over any interleaving, a signal is marked sent exactly if the last write of its flag that took effect set it |
| SignalFlags.ClearThoughOrderedIff | src/finanalytics_ai/workers/auto_trader_dispatcher.py:324-348 | over any interleaving in which no two dispatches name one signal: the flag of a signal with a confirmed order is clear exactly if the write of the flag by that order's own dispatch has not taken effect |
| SignalFlags.ClearedByAnother | src/finanalytics_ai/workers/auto_trader_dispatcher.py:316-339 | over any interleaving: a step clears a set flag only if it is of a dispatch that failed, and another dispatch of the same signal had set it for an order that stands |
| SignalFlags.SecondDispatchClears | src/finanalytics_ai/workers/auto_trader_dispatcher.py:316-348 | the run: two dispatches of one signal, the first succeeds, the second fails and clears the flag |
| DispatchReports.NakedIffOcoRefused | src/finanalytics_ai/workers/auto_trader_dispatcher.py:350-378 | over any interleaving: a dispatch that reports success for an order with both exits has tried to attach them, and the order stands without them exactly if that POST was not taken |
| Dispatcher.Desk.InsertIntent | src/finanalytics_ai/workers/auto_trader_dispatcher.py:67-110 | adds the row, or nothing, and returns its id exactly if the commit was seen |
| Dispatcher.Desk.UpdateIntentSent | src/finanalytics_ai/workers/auto_trader_dispatcher.py:113-149 | writes `sent_at` and one outcome into the row, and returns whether a row was updated |
| Dispatcher.Desk.UpdateSignalLogSent | src/finanalytics_ai/workers/auto_trader_dispatcher.py:152-168 | writes the sent flag and the local id of a signal, or nothing |
| Dispatcher.Desk.PostOrder | src/finanalytics_ai/workers/auto_trader_dispatcher.py:174-217 | the agent's orders after the POST, and the error of a raise or of `ok` not being set |
| Dispatcher.Desk.PostOco | src/finanalytics_ai/workers/auto_trader_dispatcher.py:220-254 | the agent's OCOs after the POST |
| Dispatcher.Desk.ReportSuccess | src/finanalytics_ai/workers/auto_trader_dispatcher.py:341-386 | the two updates and the OCO after a POST that succeeded do what the step machine does |
| Dispatcher.Desk.ReportFailure | src/finanalytics_ai/workers/auto_trader_dispatcher.py:316-339 | the two updates after a failed POST do what the step machine does |
| Dispatcher.Desk.DispatchOrder | src/finanalytics_ai/workers/auto_trader_dispatcher.py:257-386 | the whole pipeline refines the step machine run alone: same rows, same agent, same report, which DispatchEnds.DispatchLeaves tells field by field |
| DispatchEnds.DispatchLeaves | src/finanalytics_ai/workers/auto_trader_dispatcher.py:257-386 | whatever each call does: what one dispatch reports, its intent row with id or error, the flag and id of its signal, its order and its exits, each field by the request and the replies, and that nothing else changes |
| PairDispatch.Agent.PostLeg | src/finanalytics_ai/workers/auto_trader_dispatcher.py:453-465 | the agent's orders after one leg's POST, and whether it returned |
| PairDispatch.Agent.DispatchPair | src/finanalytics_ai/workers/auto_trader_dispatcher.py:415-510 | leg A is added if taken, with ticker, lower-case side, quantity and id of A, then leg B if taken, with those of B, both at the market, and nothing else; `ok` says both POSTs returned, a naked leg A that only A's did; both are right about the legs taken exactly if no POST that was made raised after its order was taken |
| PairDispatch.TakenLegs | src/finanalytics_ai/workers/auto_trader_dispatcher.py:452-510 | which legs the agent took, by what each POST did, each the order of its leg field by field |
| PairDispatch.LegBNeverAlone | src/finanalytics_ai/workers/auto_trader_dispatcher.py:466-475 | leg B is never taken without leg A, whatever the POSTs do |
| Features.Sma | scripts/features_daily_builder.py:59-67 | the loop gives the window mean at every index, nothing in the warm-up |
| Features.ReturnsLog | scripts/features_daily_builder.py:76-83 | the lagged log return at every index, nothing where a close is not positive |
| Features.RollingStd | scripts/features_daily_builder.py:86-100 | the sample deviation of the values present in the window, nothing with fewer than half |
| Features.Atr14 | scripts/features_daily_builder.py:103-124 | the running update gives the Wilder-smoothed true range at every index; Indicators.AtrIs says of what |
| Indicators.TrueRangeIsReach | scripts/features_daily_builder.py:107-114 | the true range is the width of the smallest interval that holds the day's high, its low and the close before, exactly if high and low are the right way round or the close before does not lie strictly between them |
| Indicators.WilderIsWeighted | scripts/features_daily_builder.py:115-124 | a smoothed value is the sum of all values, each a fourteenth, times 13/14 for each step since it came in, the first 14 coming in together |
| Indicators.AtrIs | scripts/features_daily_builder.py:103-124 | the ATR is that weighted average of those widths, from the fourteenth bar on |
| Features.Moves | scripts/features_daily_builder.py:131-136 | the gains and losses of a close series |
| Features.RsiIsGainShare | scripts/features_daily_builder.py:141-142 | the reading is the gain's share of all movement in percent wherever something has moved, 100 where nothing has, and always in [0, 100] |
| Features.Rsi14 | scripts/features_daily_builder.py:127-148 | the two running averages give the RSI at every index, the short-series branch included |
| Features.VolumeRel | scripts/features_daily_builder.py:151-164 | volume over the window's median at every index, nothing where the median is not positive |
| Features.ComputeFeatures | scripts/features_daily_builder.py:291-327 | the table holds every indicator of every bar; Indicators.RowsRead says what each column is |
| Indicators.VarianceIs | scripts/features_daily_builder.py:91-99 | the variance is the sum of squared offsets from the point at which the offsets cancel out, over one less than their number |
| Indicators.MedianIs | scripts/features_daily_builder.py:158-159 | the median is the value of middle rank, or half the sum of the two |
| Indicators.RowsRead | scripts/features_daily_builder.py:59-327 | each column, told from the bars: log returns over 1, 5 and 21 bars, deviation of the last 21 daily returns where at least 10 exist, volume over the median of 20, mean closes of 50 and 200, the gain's share of Wilder-weighted movement, the Wilder-weighted reach; and where each is missing |
| Features.SortIsSorted | scripts/features_daily_builder.py:158-159 | the median is taken of the window's values in ascending order, all of them |
| Features.WilderBounded | scripts/features_daily_builder.py:115-124 | a smoothed value stays between the least and greatest value it has been fed |
| Features.AtrBetweenTrueRanges | scripts/features_daily_builder.py:103-124 | the ATR lies between the least and the greatest true range so far |
| Features.FadedIsPower | scripts/features_daily_builder.py:116-122 | fading k times is multiplying by (13/14)^k |
| Features.WilderForgets | scripts/features_daily_builder.py:115-124 | two smoothed series fed the same k values differ by exactly (13/14)^k times their earlier difference |
| Features.AtrForgetsItsSeed | scripts/features_daily_builder.py:344-369 | the ATR of a run over a later window differs from the full run's by (13/14)^k of their first difference |
| Features.AverageGainForgetsItsSeed | scripts/features_daily_builder.py:139-147 | the same for the average gain behind the RSI |
| Features.AverageLossForgetsItsSeed | scripts/features_daily_builder.py:139-147 | the same for the average loss |
| Features.RsiInRange | scripts/features_daily_builder.py:139-147 | every RSI value lies in [0, 100] |
| Features.RsiShiftInvariant | scripts/features_daily_builder.py:133-136 | adding a constant to all closes does not change the RSI |
| Features.RsiScaleInvariant | scripts/features_daily_builder.py:133-147 | multiplying all closes by a positive constant does not change the RSI |
| Features.RsiMirrors | scripts/features_daily_builder.py:133-147 | negating the closes gives 100 minus the RSI exactly where an average gain or loss is positive |
| Features.AtrScales | scripts/features_daily_builder.py:103-124 | the ATR scales with the prices |
| Features.SmaScales | scripts/features_daily_builder.py:59-67 | the moving average scales with any factor |
| Features.VolumeRelScaleInvariant | scripts/features_daily_builder.py:151-164 | the relative volume does not depend on the unit of volume |
| Features.TableCausal | scripts/features_daily_builder.py:291-327 | features of a prefix of the bars are the prefix of the features, for all indicators at once |
| Features.IncrementalErasesLongAverages | scripts/features_daily_builder.py:348-373 | an incremental run of 30 days overwrites the stored 50- and 200-bar averages of its days by nothing |
| FeatureWindows.RowKeptIff | scripts/features_daily_builder.py:291-327 | a run over the bars from m on writes the row a run over all bars writes exactly under the conditions of every column: look-backs that fit the window or give nothing in both runs, equal first ATR values, the RSI condition below, and a left-out return that does not matter |
| FeatureWindows.IncrementalIsFullIff | scripts/features_daily_builder.py:291-373 | the stored row of a day after such a run is the full run's exactly under those conditions, whatever was stored before |
| FeatureWindows.SmaKeptIff | scripts/features_daily_builder.py:59-67 | the moving average is kept exactly if its window fits or the whole history is too short for it |
| FeatureWindows.StdKeptIff | scripts/features_daily_builder.py:86-100 | the volatility: at the one bar where the window lacks its first return, kept exactly if that return was missing, or too few are there in both runs, or its squared distance from the mean of the others is (n+1)/n of their variance |
| FeatureWindows.AtrKeptIff | scripts/features_daily_builder.py:103-124 | the ATR is kept from the window's first value on exactly if that value is the full run's: the difference fades but never goes |
| FeatureWindows.RsiKeptIff | scripts/features_daily_builder.py:127-148 | the RSI is kept exactly if the first differences of the two averages stand in the ratio of the full run's averages at the bar, and closes that have fallen at all have fallen within the window |
| Di1Worker.PollSound | src/finanalytics_ai/workers/di1_realtime_worker.py:185-244 | one turn of one contract keeps cursor safety, wherever fetches or sends fail |
| Di1Worker.RunsAreSound | src/finanalytics_ai/workers/di1_realtime_worker.py:185-244 | over all arrivals and turns, rows of one time and trade number included: the log is in (time, number) order without repeats and the cursor is its last time; if no row arrived behind the cursor, a row it passed is published or shares its timestamp with one that is |
| Di1Worker.DistinctTimesLoseNothing | src/finanalytics_ai/workers/di1_realtime_worker.py:192-244 | with distinct timestamps the log is exactly the rows in (start, cursor] |
| Di1Worker.PollSkipsIffTieIsCut | src/finanalytics_ai/workers/di1_realtime_worker.py:192-244 | one turn passes a row over exactly if it stops, at the page limit or a failure, between two rows of one timestamp |
| Di1Losses.PassedForGood | src/finanalytics_ai/workers/di1_realtime_worker.py:189-202 | a row that is not published when the cursor has come to its time is not published whatever happens afterwards |
| Di1Losses.NothingIsLostIff | src/finanalytics_ai/workers/di1_realtime_worker.py:185-244 | over any arrivals and turns: every row between the start and the cursor is published exactly if no turn stopped inside a timestamp and no row arrived at a time the cursor had already come to |
| Di1Losses.FailedSendLosesARow | src/finanalytics_ai/workers/di1_realtime_worker.py:226-236 | the input: a send fails between two rows of one timestamp |
| Di1Losses.PageLimitLosesARow | src/finanalytics_ai/workers/di1_realtime_worker.py:192-203 | the input: any 501 rows of one timestamp, no failure; the last is lost |
| Di1Losses.LateTieIsLost | src/finanalytics_ai/workers/di1_realtime_worker.py:192-203 | the input: no failure and no page limit, a row of the timestamp just published arrives after it |
| Di1Losses.LateRowIsLost | src/finanalytics_ai/workers/di1_realtime_worker.py:192-203 | the input: a row arrives behind the cursor |
| Di1Loop.Worker.constructor | src/finanalytics_ai/workers/di1_realtime_worker.py:173-180 | every contract's cursor starts at the boot time |
| Di1Loop.Worker.Publish | src/finanalytics_ai/workers/di1_realtime_worker.py:226-244 | what one acknowledged row changes: topic, counters, cursor and last trade number |
| Di1Loop.Worker.PollContract | src/finanalytics_ai/workers/di1_realtime_worker.py:188-244 | the state after one contract's turn, and whether the turn raises |
| Di1Loop.Worker.PollOnce | src/finanalytics_ai/workers/di1_realtime_worker.py:185-244 | the state after all contracts' turns, the first that raises ending the poll |
| Di1Loop.Worker.LoopBody | src/finanalytics_ai/workers/di1_realtime_worker.py:259-264 | a poll that raised counts as one poll error |
| Di1Loop.VisitIsPoll | src/finanalytics_ai/workers/di1_realtime_worker.py:188-244 | a contract's turn is one step of its own feed and leaves every other contract's cursor and log alone |
| Di1Loop.WorkerRunsAreSound | src/finanalytics_ai/workers/di1_realtime_worker.py:246-268 | over any run of the worker every contract keeps cursor safety, and the counters and last trade numbers agree with what is on the topic |
| Di1Turns.PageIs | src/finanalytics_ai/workers/di1_realtime_worker.py:188-225 | of the rows later than the cursor, in order, at most 500, the ones before the first that cannot be converted or is not acknowledged are published |
| Di1Turns.VisitDone | src/finanalytics_ai/workers/di1_realtime_worker.py:188-244 | one turn, field by field: a failed fetch only counts; else those rows go to the topic, cursor and trade number are the last one's, totals grow by their number, what stopped them raises or counts as a broker error, and other contracts keep all |
| Di1Turns.RoundDone | src/finanalytics_ai/workers/di1_realtime_worker.py:185-264 | a round is such turns one after the other, up to the first that raises, and one poll error more if one did |
| Di1Stalls.BadRowHoldsTheCursorIff | src/finanalytics_ai/workers/di1_realtime_worker.py:192-244 | over any arrivals and turns: a row that cannot be converted is never published, and the cursor stays before it exactly as long as no other row of its timestamp has been published |
| Di1Stalls.LateTieReleasesTheCursor | src/finanalytics_ai/workers/di1_realtime_worker.py:192-244 | a held cursor is released once a row of the same timestamp arrives and is published: two turns that show it |
| Di1Stalls.ReachedIffNoneRaises | src/finanalytics_ai/workers/di1_realtime_worker.py:185-225 | a round reaches a contract exactly if no contract before it raises at its own turn, that is, comes to a row that cannot be converted |
| Di1Stalls.BadRowStarvesTheRest | src/finanalytics_ai/workers/di1_realtime_worker.py:188-225 | a contract that raises, after any rows it could publish, ends the round: the rest of the state is what its turn left, with one poll error more |
| Migration.Destination.CopyPages | scripts/migrate_to_timescale.py:178-195 | the paging loop appends what the pages fetch, up to the expected count, an empty page or the crash; each page is cut from an answer of its own, which may list the rows of a day in any order |
| Migration.Destination.MigrateYear | scripts/migrate_to_timescale.py:134-216 | the year grows by what its pages fetched, no other year changes, the counts returned are right, and it crashes exactly if its pages are used up before the count of the source is reached |
| MigrationSteps.StopIs | scripts/migrate_to_timescale.py:178-195 | the pages come to that many rows: full pages but for the last, none empty, none begun at or past the expected count, fewer than there may be only at the end of the list or past that count |
| MigrationSteps.RunYearGains | scripts/migrate_to_timescale.py:134-216 | a year gains, where it counts fewer rows than the source: as many rows as such pages come to, each the row that the answer to the page it is on lists at its position among the rows of days after all days already there; else nothing |
| Migration.Destination.MigrateTable | scripts/migrate_to_timescale.py:228-236 | full batches of parallel years, the last shorter, run a prefix of the years up to the last or to the first batch in which a year crashes; no other year changes; each year run is that of MigrateYear, the totals are the growth of the table and what the years held already |
| Migration.BatchesPartitionTheYears | scripts/migrate_to_timescale.py:228-233 | the batches it loops over hold every year once and in order exactly if the step is positive |
| MigrationPaging.FetchedOnceIff | scripts/migrate_to_timescale.py:169-195 | the pages of a run fetch each row at most once, for every order in which each query may list the rows of a day, exactly if no page after the first begins inside a day |
| MigrationRuns.HistoryIsReal | scripts/migrate_to_timescale.py:134-216 | the runs told by places are the runs on rows: each resumes behind the last day it finds copied and appends what its pages fetch |
| MigrationRuns.ResumesPastTheCopied | scripts/migrate_to_timescale.py:149-176 | what a run still fetches is the source from a place past everything copied |
| MigrationRuns.RunCopiesOnceIff | scripts/migrate_to_timescale.py:134-216 | a run copies no row a second time, whatever the answers, exactly if none of its pages but the first begins inside a day |
| MigrationRuns.RowsAreCopiedOnceIff | scripts/migrate_to_timescale.py:134-216 | over any runs with any batch sizes and crashes: each row is copied at most once, for every choice of answers, exactly if no page of any run but its first begins inside a day |
| MigrationRuns.FinishedRunIsExactIff | scripts/migrate_to_timescale.py:149-195 | a run that finishes leaves every row exactly once, whatever the answers, exactly if the destination held every row up to its last day once and no page of the run but its first begins inside a day |
| MigrationRuns.FinishedYearIsCompleteIff | scripts/migrate_to_timescale.py:149-195 | the same on rows, for a source without equal rows: the destination has every row of the source and as many, whatever the answers, under exactly that condition |
| MigrationRuns.PassedRowIsOfASplitDay | scripts/migrate_to_timescale.py:149-195 | a row later runs will pass over is of a day inside which a page of an earlier run began or an earlier run stopped |
| MigrationRuns.FinishedRunMissesOnlySplitDays | scripts/migrate_to_timescale.py:149-195 | whatever is missing after a finished run is of such a day, of this run or an earlier one |
| MigrationRuns.TwoRowsOfOneDay | scripts/migrate_to_timescale.py:169-195 | two rows of one day in pages of one: the run finishes with the right count, one row copied twice and the other missing |
| BracketMatch.FindBalancedClose | scripts/refactor_alert_confirm.py:15-38 | the loop with its two-step escape returns the first place where the depth returns to 0 outside strings, or -1 exactly if there is none |
| BracketMatch.ReadScript | scripts/refactor_alert_confirm.py:20-36 | a script of the grammar (plain characters, quoted strings with escapes, groups) read outside strings leaves depth and quote as they were |
| BracketMatch.ClosedFirstIffGroup | scripts/refactor_alert_confirm.py:15-38 | a place is the matcher's answer exactly if the text up to it is a parenthesised script of the grammar, whatever follows |
| BracketMatch.UnclosedIffNoGroup | scripts/refactor_alert_confirm.py:15-38 | the answer is -1 exactly if no parenthesised script begins there |
| AlertRewrite.CallOf | scripts/refactor_alert_confirm.py:173-182 | what the pass makes of one match: skipped behind `.` or `_`, unclosed or empty, else the call |
| AlertRewrite.AlertPass | scripts/refactor_alert_confirm.py:170-190 | the loop over matches writes the splice of the calls and counts them |
| AlertRewrite.CallsAreTheAlerts | scripts/refactor_alert_confirm.py:172-185 | the calls are all that qualify, in order; each is `alert`, a parenthesised script, and its argument between white space |
| AlertRewrite.RestoredIffApart | scripts/refactor_alert_confirm.py:170-190 | putting the replaced calls back gives the original text exactly if no call starts inside the one before it; otherwise text is written more than once |
| AlertRewrite.OutsideKeptIffNoRewind | scripts/refactor_alert_confirm.py:186-190 | the text outside the calls is kept once and in order, and nothing else is kept exactly if no call ends before the next one starts and inside an earlier one |
| AlertRewrite.NestedCallIsRepeated | scripts/refactor_alert_confirm.py:170-190 | for `alert(alert(1))` the inner call is written twice and a bracket is left over |
| AlertPlaces.CallAtIff | scripts/refactor_alert_confirm.py:173-182 | the pass takes a place for a call exactly if `alert`, a parenthesised script and in it an argument between white space stand there, not behind `.`, `_` or a character of a word |
| AlertPlaces.PassIs | scripts/refactor_alert_confirm.py:170-190 | the text of the pass place by place: at a call the toast call for it, and the character where the call that started last has ended; the count is the number of calls |
| AlertPlaces.QuotesHide | scripts/refactor_alert_confirm.py:20-36 | a parenthesis between two of the same character is hidden from the matcher exactly if that is one of the three quotes |
| AlertPlaces.BackslashHides | scripts/refactor_alert_confirm.py:22-27 | a backslash keeps a quote from ending a string |
| WalkForward.LoadRows | scripts/calibrate_ml_thresholds.py:89-123 | each row's target is the log ratio of the close `horizon` days ahead, where both closes are there and positive |
| WalkForward.TrainQ | scripts/calibrate_ml_thresholds.py:126-158 | training sees exactly the complete rows with a target before the end, and gives no model with fewer than 50 |
| WalkForward.NextScore | scripts/calibrate_ml_thresholds.py:191-205 | one position: a model trained up to this row when it is due, else the one before, and the row's score by it |
| WalkForward.ComputeScores | scripts/calibrate_ml_thresholds.py:171-206 | one score per test row, each by the model in force at its position, and the count of trainings |
| WalkForward.ScoresExact | scripts/calibrate_ml_thresholds.py:175-177 | the j-th score is that of test position j, none missing |
| WalkForward.ModelIsTrainedTo | scripts/calibrate_ml_thresholds.py:182-193 | the model in force at a position is the one trained on the rows before the last retraining |
| WalkForward.TrainEndIs | scripts/calibrate_ml_thresholds.py:191-193 | retraining at multiples of the period, that row is test_start + (j div period) * period |
| WalkForward.ScoreHasForecastSign | scripts/calibrate_ml_thresholds.py:161-205 | a score has the sign of the median forecast, whatever the other quantiles and the volatility |
| WalkForward.ScoreLooksNoFurther | scripts/calibrate_ml_thresholds.py:98-113 | a score is unchanged by any change of rows at or beyond max(own index + 1, last training end + horizon) |
| LookAhead.ReadsNoLaterRowIff | scripts/calibrate_ml_thresholds.py:104-193 | whatever the training, a score depends on no row after its own exactly if its model's training ends before row 50, so that there is none, or that end plus the horizon is at most one past the scored row |
| WalkForward.Align | scripts/calibrate_ml_thresholds.py:289-306 | the loop drops rows whose close is not positive from bars and scores alike |
| WalkForward.StayAligned | scripts/calibrate_ml_thresholds.py:289-306 | the k-th bar and the k-th score are those of the same test row, the k-th with a positive close |
| WalkForward.GridSearch | scripts/calibrate_ml_thresholds.py:308-348 | the nested loops return the first candidate that none beats on (Sharpe, return), or none if there is no candidate |
| WalkForward.CandidatesExact | scripts/calibrate_ml_thresholds.py:309-343 | the candidates are exactly the grid pairs with sell below buy whose backtest returns with at least 3 trades |
| WalkForward.CalibrateFrom | scripts/calibrate_ml_thresholds.py:287-348 | scores, alignment and grid search composed on the test rows |
| WalkForward.CalibrateOne | scripts/calibrate_ml_thresholds.py:269-358 | the guards on short histories, and otherwise the first best candidate of the aligned scores |
| Calibration.ChanceIs | scripts/calibrate_ml_thresholds.py:161-168 | the chance of a gain is 0.95 or 0.05 where the outer quantiles agree on the sign, else between 0.5 and 0.9 or between 0.1 and 0.5 by the share of the median or of the upper quantile: the clipping never acts |
| Calibration.ScoreAtIs | scripts/calibrate_ml_thresholds.py:171-206 | a day's score, told from the history: none where a feature is missing or fewer than 50 complete days with positive closes `horizon` apart precede the last retraining; else the chance times the median per unit of volatility, of the forecast learnt from those days |
| Calibration.TrainingsAre | scripts/calibrate_ml_thresholds.py:179-193 | one training at the start and one for each full period after it |
| Calibration.FirstBestIsBest | scripts/calibrate_ml_thresholds.py:308-348 | what the search returns: thresholds of the grid, sell below buy, whose signals come out with at least 3 trades, beaten by none, and the lowest of those that come out as well; none exactly if none come out |
| Calibration.CalibratedIs | scripts/calibrate_ml_thresholds.py:269-358 | the calibration is the search on the scores and closes of the days after the training's end that have a positive close |
| Accounts.TradingAccount.Activate | src/finanalytics_ai/domain/accounts.py:120-122 | the account's status and update time, in place, and nothing else |
| Accounts.TradingAccount.Deactivate | src/finanalytics_ai/domain/accounts.py:124-126 | the same for deactivation |
| Accounts.Repository.Save | src/finanalytics_ai/infrastructure/db/postgres_repository.py:146-164 | the row is inserted, or DuplicateAccountError is raised on a taken uuid or business key |
| Accounts.Repository.GetByUuid | src/finanalytics_ai/infrastructure/db/postgres_repository.py:166-171 | a copy of the row, or AccountNotFoundError |
| Accounts.Repository.GetActive | src/finanalytics_ai/infrastructure/db/postgres_repository.py:195-198 | some active row, or none exactly if there is none |
| Accounts.Repository.SetActive | src/finanalytics_ai/infrastructure/db/postgres_repository.py:200-213 | all rows deactivated and the chosen one active, or nothing changed and AccountNotFoundError |
| Accounts.Repository.Update | src/finanalytics_ai/infrastructure/db/postgres_repository.py:215-227 | writes the editable columns of an existing row, never its status or key |
| Accounts.Repository.Delete | src/finanalytics_ai/infrastructure/db/postgres_repository.py:229-233 | removes the row, or AccountNotFoundError |
| Accounts.CreateAccount | src/finanalytics_ai/application/use_cases.py:70-97 | the new inactive account, or the duplicate error with the table unchanged |
| Accounts.SetActiveAccount | src/finanalytics_ai/application/use_cases.py:134-143 | the table and the account after activation, or the not-found error |
| Accounts.GetActiveAccount | src/finanalytics_ai/application/use_cases.py:156-160 | an active account, or NoActiveAccountError exactly if there is none |
| Accounts.UpdateAccount | src/finanalytics_ai/application/use_cases.py:167-179 | the fields given are written to the row and to the account returned, the rest of the table is unchanged; or the not-found error |
| Accounts.DeleteAccount | src/finanalytics_ai/application/use_cases.py:186-193 | the row removed, the not-found error, or the refusal to remove the active account |
| Accounts.ActiveIsLastActivated | src/finanalytics_ai/application/use_cases.py:118-193 | after any use cases keys are unique, at most one account is active, and it is the last one activated |
| Accounts.ActiveStays | src/finanalytics_ai/application/use_cases.py:146-160 | once an activation has succeeded there is always an active account |
| AccountFields.AccountsShow | src/finanalytics_ai/application/use_cases.py:70-193 | after any use cases an account is there exactly if it was created and not removed since, and title, password and broker show what they were last given, key, sub-account and creation time what the creation gave, the update time the last creation, edit or activation of any account |
| AccountRaces.InterleavedUseCases | src/finanalytics_ai/application/use_cases.py:70-193 | use cases interleaved between look-up and write, activations included: keys stay unique, at most one account is active, and it is the last activated unless it was removed since or an activation found its account gone |
| AccountRaces.ActiveIsLostIff | src/finanalytics_ai/infrastructure/db/postgres_repository.py:200-233 | an event leaves no account active where one was exactly if it removes the account standing or writes an activation whose account is gone |
| AccountRaces.RemovalOvertaken | src/finanalytics_ai/application/use_cases.py:186-193 | the first needs an activation of the account between the removal's look-up and its write |
| AccountRaces.ActivationOvertaken | src/finanalytics_ai/infrastructure/db/postgres_repository.py:200-213 | the second needs a removal of the account between the activation's look-up and its write |
| AccountRaces.RemovalCanTakeTheActive | src/finanalytics_ai/application/use_cases.py:186-193 | a run of six events after which no account is left though an activation succeeded |
| AccountRaces.ActivationCanLoseTheActive | src/finanalytics_ai/infrastructure/db/postgres_repository.py:200-213 | from any world with one account active: activating another that is removed meanwhile leaves none active |
| CopomJoin.ByDateExact | scripts/copom_fetch.py:137-143 | a date has a rate exactly if a parsable entry gives it one, and then the last such entry's |
| CopomJoin.SortedDatesExact | scripts/copom_fetch.py:144-144 | the sorted dates are those with a rate, each once |
| CopomJoin.SortKeeps | scripts/copom_fetch.py:145-145 | documents in date order, all of them, those of one date in the order given |
| CopomJoin.FindNearest | scripts/copom_fetch.py:149-155 | the scan finds the greatest series date not after the document's, or none exactly if all are after it |
| CopomJoin.StartsOnce | scripts/copom_fetch.py:156-157 | once the series has started for a date it has for every later one |
| CopomJoin.JoinOne | scripts/copom_fetch.py:147-161 | the document's target and change, and the rate carried on |
| CopomJoin.JoinSelic | scripts/copom_fetch.py:133-161 | every document holds the rate at the nearest date and the change since the document before it; documents before the series are untouched |
| CopomJoin.ChangesTelescope | scripts/copom_fetch.py:159-161 | the specified changes add up to the last target less the first |
| CopomJoin.HeldChangesTelescope | scripts/copom_fetch.py:133-161 | after the join over documents each given once, the changes the documents hold add up to the last target less the first |
| PolicyRates.RateIs | scripts/copom_fetch.py:137-158 | the rate of a date is that of the entry that could be parsed with the greatest date not after it, the last of that date; there is none exactly if no such entry is |
| PolicyRates.JoinedIs | scripts/copom_fetch.py:147-161 | what a document is to hold: that rate of its date, and its difference from that of the document before; nothing new where there is no rate |

## Assumptions

- Reals stand for floats; `log` and `sqrt` are functions given from outside, SHA-256 is any function
  to 48-character digests without colons, training and the backtest are functions of their inputs.
- Times are integers counted from a Monday, in a session time zone of UTC. NULL volumes count as 0,
  as COALESCE makes them.
- Identifiers and letters in patterns are folded as ASCII.
- Rows of `profit_ticks` are told apart even where all columns agree, and rows of one time and trade
  number may be listed in another order by each query; a missing trade number sorts after all others.
- A trade history is a sequence in (date, number) order, the order in which the queries take first and last.
- The two updates of an activation are one step, since the first locks every row; its look-up takes no
  lock and is a step of its own.

## Left out

- Di1Loop.WorkerRunsAreSound: rows that arrive during a round are taken to arrive before or after it; a send counts as published when it is acknowledged, so what Kafka delivers more than once is not modelled; rows inserted behind the cursor are excluded here (`Di1Losses.NothingIsLostIff` admits them for one contract).
- Di1Loop.Worker.PollOnce: does not model the two wall-clock gauges `last_poll_ts` and `last_tick_ts`.
- MigrationRuns.RowsAreCopiedOnceIff: takes the source not to change while it is copied, and the destination to be written by this script only.
- Migration.Destination.MigrateTable: runs the years of a batch one after another; their tasks write rows of different years only. Progress output and `verify_counts` are not modelled.
- AlertRewrite.AlertPass: the word characters before `alert` and the choice of the toast function are parameters; the confirm pass and the pass that makes functions async are not modelled.
- CssReading.ReadingKeptIff: a hash is taken for an id where `{` comes before the next `;` or `}`, which is what a selector amounts to but for braces in declarations; the white space that ends a numeric escape and `<!--` are read as plain characters; that a text may itself redefine a theme variable does not enter the reading.
- OrderIds.LegIdsEqual: for pair keys that hold colons it does not say when two legs share a raw id.
- ColorRewrite.ReplaceOutsideRoot: takes the text of one style block; finding `<style>` blocks and writing files is not modelled.
- OhlcResample.Warehouse.ResampleAll: does not model the per-interval totals that are printed, or the choice of tickers.
- DailyBars.DailyPathsAgree: does not compare the volume column, which the two paths define differently.
- Dispatcher.RunsAreSound: rows are only touched by dispatches; the agent's own removal of duplicate ids is not modelled.
- WalkForward.CalibrateOne: a retraining period of 0, at which the original raises, is excluded; `evaluate` and the stored configuration are not modelled.
- Accounts.UpdateAccount: two interleaved updates of one account may overwrite each other's fields; that is allowed by the model but not stated.
- Accounts.Repository.Save: listing accounts, schema creation and the clock are left out; identifiers and times are parameters.
- Features.ComputeFeatures: loading bars and the choice of tickers are not modelled.
- CopomJoin.JoinSelic: dates and rates of the series come parsed or missing; fetching documents is not modelled.
- Request construction, HTTP, connections, logging, metrics pages and schedules appear only as success or failure of the environment.
- Backfill and import scripts, dashboards and schema migrations would add only easy members.
