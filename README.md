# Printer monitor — a Dafny model of its core

The printer monitor polls office printers over SNMP and stores what they report in SQLite: one
status row per printer, a snapshot of each printer's supplies, and a history of supply
replacements. A background scheduler starts the poll cycle, and an admin route imports printers
from JSON. A middleware guards the admin pages, and a dashboard renders every printer as a card
of supply bars.

The model covers:

- `Snmp`: one poll (`fetchPrinterStatus`). The device's answers are parameters. The model covers
  the error-state decode, the grouping of the supply-table walk into rows, the per-row
  normalisation (RFC 3805 special values, the Canon LBP rule, clamping, classification), the
  Ricoh fallback and the retention filter.
- `Db`: the database as a class. Its tables are map and sequence fields, the schema's
  uniqueness constraints are its object invariant, and it has the start-up migrations and the
  settings seeding.
- `PrinterService`: the refresh cycle, with its status upsert, snapshot transaction and
  replacement test. Also `updatePrinter`, `deletePrinter`, `addReplacementHistory` and the
  `seedPrinters` migration.
- `AutoRefresh`: the scheduler's module state and its start, stop, restart and is-running
  operations.
- `ImportRoute`: `POST /api/admin/import`, an upsert by ip inside one transaction.
- `Middleware`: the admin route guard and its matcher.
- `SupplyBar`, `PrinterCard`: the dashboard's name-based classification of stored supplies.
- `Js`: the JavaScript built-ins these use, namely lower-casing, `includes`, `startsWith`,
  split and join, `parseInt`, number-to-text and NaN.

Two kinds of code are modelled differently:

- Code that changes state is modelled as methods over `Db.Database` or `AutoRefresh.Scheduler`,
  or as loops with invariants. Each method is proved against a specification function.
- Pure code is modelled as functions, with lemmas about them.

## Model

| member | source | states |
|---|---|---|
| Js.ToLowerIdempotent | src/components/SupplyBar.tsx:16 | lower-casing twice is lower-casing once |
| Js.Contains | src/components/SupplyBar.tsx:17 | `includes` holds exactly when the text occurs at some position |
| Js.JoinSplit | src/lib/snmp.ts:113-117 | joining the split parts with the separator gives back the string |
| Js.SplitJoin | src/lib/snmp.ts:113-117 | splitting a join of separator-free parts gives back the parts |
| Js.ParseInt | src/lib/autoRefresh.ts:9 | `parseInt` is NaN exactly when no digits follow the leading blanks and sign |
| Js.ParseIntOfIntToString | src/lib/autoRefresh.ts:9 | `parseInt` reads back the decimal text of any integer |
| Js.ParseIntOfIntToStringThen | src/components/SupplyBar.tsx:111 | `parseInt` stops at the first non-digit after a number's text |
| Snmp.DecodeFollowsPriority | src/lib/snmp.ts:71-99 | the status is byte 0's first set bit in the order jam, no paper, door open, no toner, fault. Byte 1's 0x04 gives "no paper" only when byte 0 matched nothing. The toner flags are exactly bits 0x10 and 0x20 |
| Snmp.LowTonerNeverSetsStatus | src/lib/snmp.ts:88-103 | toggling the low-toner bit never changes the status text |
| Snmp.StatusPriorityExamples | src/lib/snmp.ts:80-99 | concrete buffers decode in priority order. An empty buffer gives no status |
| Snmp.Visit | src/lib/snmp.ts:109-131 | the walk callback's per-varbind update equals one `Step` of the table |
| Snmp.GroupRows | src/lib/snmp.ts:106-131 | the walk loop builds exactly `Group(walk)` |
| Snmp.GroupWellFormed | src/lib/snmp.ts:119 | the Map's key order lists every row exactly once |
| Snmp.GroupKeys | src/lib/snmp.ts:110-119 | a row exists iff some usable varbind names it: not an error, prefix matched, enough segments |
| Snmp.StepKeys | src/lib/snmp.ts:119 | one varbind adds at most its own row key |
| Snmp.GroupLastWriteWins | src/lib/snmp.ts:122-130 | a later value for the same cell overwrites an earlier one |
| Snmp.GroupUnwrittenCell | src/lib/snmp.ts:122-130 | a cell no varbind writes stays absent |
| Snmp.JoinAppend | src/lib/snmp.ts:117 | joining a concatenation of segment lists puts one '.' between the two joins |
| Snmp.ParseComposedOid | src/lib/snmp.ts:112-117 | an OID built as prefix.column.row parses back to that column and row key |
| Snmp.RoundPercentIsNearest | src/lib/snmp.ts:214 | `Math.round(level/max*100)` is the nearest integer with halves going up. It is at most 100 when level <= max and at least 100 otherwise |
| Snmp.Clamp | src/lib/snmp.ts:219-220 | the percent is forced into [0, 100] and kept when already inside |
| Snmp.NormalizeReadingRange | src/lib/snmp.ts:187-239 | every normalised standard reading keeps its description and classification, with a percent in [0, 100] |
| Snmp.NormalizeReadingStandard | src/lib/snmp.ts:191-220 | outside the Canon rule: -3 gives 25, -2 in either field gives 0, a positive capacity gives the rounded ratio (100 once the level exceeds it), and a non-positive one passes a level in (0, 100] through. Every other reading gives 0, including level -1, NaN, and a level outside (0, 100] with no capacity |
| Snmp.NormalizeReadingCanon | src/lib/snmp.ts:197-207 | under the Canon LBP rule, level and percent are 0 when the no-toner flag is set, else 100. A non-positive capacity becomes 100 |
| Snmp.NormalizeRow | src/lib/snmp.ts:187-239 | a row gives a supply exactly when its description is non-empty and its level and capacity are present, and that supply is the row's normalised reading |
| Snmp.NormalizeKeys | src/lib/snmp.ts:186-241 | at most one supply per row key, each with a percent in [0, 100] |
| Snmp.NormalizeKeysMembers | src/lib/snmp.ts:186-241 | a supply is in the result exactly when it is the normalisation of a complete row of one of the keys |
| Snmp.NormalizeKeysAppend | src/lib/snmp.ts:186-241 | the supplies of two runs of keys are the first run's followed by the second's, and one key gives its complete row's supply or nothing, so supplies come in key order |
| Snmp.NormalizeRows | src/lib/snmp.ts:186-241 | the loop over the row Map pushes exactly `NormalizeKeys` in key order |
| Snmp.Retain | src/lib/snmp.ts:244-251 | the filter keeps exactly the retained supplies |
| Snmp.RetainAppend | src/lib/snmp.ts:244-251 | `filter` keeps order and every copy: filtering a concatenation filters each part, and one supply is kept iff it is retained |
| Snmp.RetentionExamples | src/lib/snmp.ts:245-250 | waste and Canon LBP toner are kept at zero, and an all-zero "other" row is dropped |
| Snmp.RicohSupply | src/lib/snmp.ts:173-176 | a Ricoh row gives a supply exactly when it has a percent, NaN included |
| Snmp.RicohSupplyLaws | src/lib/snmp.ts:173-176 | the level and percent are the row's percent, and the capacity is 100. The name is the description, else the name, else 'Unknown Toner'. The supply is waste iff the name holds 'waste' in any case or '废', and toner otherwise |
| Snmp.RicohKeys | src/lib/snmp.ts:172-178 | each Ricoh supply has capacity 100 and level equal to its percent, and is toner or waste |
| Snmp.RicohKeysMembers | src/lib/snmp.ts:172-178 | a supply is in the result exactly when it is the supply of a key's row that has a percent |
| Snmp.RicohKeysAppend | src/lib/snmp.ts:172-178 | the Ricoh supplies of two runs of keys are the first run's followed by the second's, and one key gives its row's supply or nothing, so supplies come in key order |
| Snmp.RicohRows | src/lib/snmp.ts:170-178 | the Ricoh completion loop rebuilds the supplies exactly as `RicohKeys` |
| Snmp.ClassifyLaws | src/lib/snmp.ts:223-237 | against the keyword tables: waste iff 'waste' or '废弃' occurs in the lower-cased description. Toner iff no waste keyword but one of the twelve toner keywords occurs. 'other' iff neither occurs. Classification ignores case |
| Snmp.FetchPrinterStatus | src/lib/snmp.ts:24-259 | the callback chain yields exactly `Poll` of the device's answers |
| Snmp.PollProbeOutcome | src/lib/snmp.ts:32-56 | a failed probe gives exactly {offline, 'Offline', []}. A probe without a value gives {online, 'Running', []}. Only a failed probe is offline |
| Snmp.PollSupplies | src/lib/snmp.ts:141-251 | with the Ricoh fallback, the supplies are exactly those of the private rows with a percent. Otherwise they are exactly the retained normalisations of the complete standard rows, each with a percent in [0, 100] |
| Db.Database.Open | src/lib/db.ts:4-5 | a new database file has no tables and no rows and satisfies the invariant |
| Db.Database.CreateTables | src/lib/db.ts:10-54 | `CREATE TABLE IF NOT EXISTS` adds the missing tables and leaves existing ones alone |
| Db.Database.AddColumn | src/lib/db.ts:57-62 | the column is added iff its table exists without it. The swallowed error changes nothing |
| Db.Database.SeedSetting | src/lib/db.ts:81-86 | a setting is inserted only when its key is absent |
| Db.Database.Migrate | src/lib/db.ts:10-78 | all five tables exist, with display_order, source and remark |
| Db.Database.SeedDefaults | src/lib/db.ts:88-91 | the settings become `SeededSettings` of the old ones |
| Db.Database.Initialise | src/lib/db.ts:10-91 | loading the module keeps the invariant, creates the tables and columns, and seeds the settings |
| Db.SeededSettingsLaws | src/lib/db.ts:81-91 | the four keys exist afterwards. An existing value is kept, an absent one takes its default, and no other key changes |
| Db.SeedIdempotent | src/lib/db.ts:81-91 | seeding twice is seeding once |
| PrinterService.PercentTimesMax | src/lib/printerService.ts:140-141 | the percent of a positive capacity times that capacity is 100 times the level |
| PrinterService.ReplacementCrossMultiplied | src/lib/printerService.ts:140-144 | for positive capacities the replacement test is its integer cross-multiplied form |
| PrinterService.PercentCompare | src/lib/printerService.ts:144 | comparing a percent with a threshold is comparing the level with that share of the capacity |
| PrinterService.JumpCompare | src/lib/printerService.ts:142-144 | a jump of more than 40 points, multiplied out |
| PrinterService.ReplacementNeedsReadings | src/lib/printerService.ts:140-144 | without a positive capacity on either side, or with a NaN level, nothing is logged |
| PrinterService.ReplacementExamples | src/lib/printerService.ts:144 | boundary cases of the 40-point, (0, 100) and 80% thresholds |
| PrinterService.SnapshotKeys | src/lib/printerService.ts:150 | the inserts leave one row per polled colour and none for another printer |
| PrinterService.SnapshotRows | src/lib/printerService.ts:150 | with distinct colours every polled supply has its own row holding its reading |
| PrinterService.AfterReplaceLaws | src/lib/printerService.ts:123-153 | after a replacement the printer holds exactly the polled (color, level, max) list, and other printers' rows are unchanged |
| PrinterService.LookupSeesOnlyThisPoll | src/lib/printerService.ts:123-137 | after the delete, the lookup finds a row only for a colour repeated earlier in the same poll |
| PrinterService.DistinctColoursNeverFindPrevious | src/lib/printerService.ts:123-139 | a poll with distinct colours never reaches the replacement test |
| PrinterService.CycleLaws | src/lib/printerService.ts:104-159 | after a cycle every printer has its poll's status row. Untouched printers keep their supply rows. A touched printer with distinct colours has rows for exactly its polled colours, each holding that supply's (level, max) |
| PrinterService.CurrentAfterStep | src/lib/printerService.ts:107-158 | printers refresh independently: one more printer is one more per-printer step |
| PrinterService.Begin | src/lib/printerService.ts:135 | the savepoint records the tables a transaction may roll back |
| PrinterService.Rollback | src/lib/printerService.ts:153 | a throwing transaction restores the savepoint |
| PrinterService.LogIfReplaced | src/lib/printerService.ts:144-147 | one history row is appended exactly when the replacement test holds |
| PrinterService.ReplaceSupplies | src/lib/printerService.ts:121-153 | as written: the snapshot becomes the polled list, the commit happens iff the colours are distinct, and history never changes |
| PrinterService.ReplaceSuppliesIntended | src/lib/printerService.ts:135-151 | with the lookup against the pre-delete rows, a committed transaction logs exactly the detected replacements |
| PrinterService.LostReplacement | src/lib/printerService.ts:123-147 | a 5/100 to 95/100 jump is detected, yet logs nothing as written and one row as intended |
| PrinterService.RefreshPrinter | src/lib/printerService.ts:109-154 | the status is upserted. The snapshot is replaced only for an online poll with supplies. A repeated colour fails the transaction |
| PrinterService.RefreshAllPrinters | src/lib/printerService.ts:104-159 | every printer is refreshed once in any order, per-printer failures are caught, and the tables end as `StatusAfter`/`CurrentAfter`. The history and its next id are unchanged |
| PrinterService.SetField | src/lib/printerService.ts:74 | setting a column changes that column only |
| PrinterService.Assignable | src/lib/printerService.ts:72 | the keys of the update data except id and added_at, in order |
| PrinterService.SetClauseEmpty | src/lib/printerService.ts:72-73 | the SET clause is empty exactly when no key is left |
| PrinterService.ApplyFields | src/lib/printerService.ts:74-75 | the id and every column not in the update are kept |
| PrinterService.ApplyFieldsSets | src/lib/printerService.ts:74-75 | every supplied column ends with its supplied value |
| PrinterService.UpdatePrinter | src/lib/printerService.ts:71-76 | nothing to set returns early. A key that is not a column of the table as the schema stands (`consumable_model` before its migration) or a duplicate ip fails and changes nothing. An unknown id answers 0 changes. Otherwise exactly the named row gets the fields |
| PrinterService.HistoryWithout | src/lib/printerService.ts:82 | the kept rows are exactly those of other printers |
| PrinterService.HistoryWithoutKeepsOthers | src/lib/printerService.ts:82 | every other printer's history is kept, in order |
| PrinterService.HistoryWithoutAscending | src/lib/printerService.ts:82 | deleting history rows keeps the ids ascending |
| PrinterService.DeletePrinter | src/lib/printerService.ts:78-86 | the printer's status, supply rows, history and row are gone, and nothing else changes |
| PrinterService.ConsistentAfterDelete | src/lib/printerService.ts:78-86 | the delete keeps the schema's constraints |
| PrinterService.AddReplacementHistory | src/lib/printerService.ts:92-98 | for a known printer, appends one row with the next id, and an absent source is 'manual'. For an unknown printer the FOREIGN KEY of db.ts fails and the history is unchanged |
| PrinterService.SeedPrinters | src/lib/printerService.ts:32-51 | adds consumable_model when missing. The empty seed list inserts nothing |
| AutoRefresh.IntervalText | src/lib/autoRefresh.ts:8 | an absent or empty setting reads as '15' |
| AutoRefresh.IntervalMinutes | src/lib/autoRefresh.ts:9 | the parsed minutes when truthy, else 15, and never 0 |
| AutoRefresh.IntervalMs | src/lib/autoRefresh.ts:10 | minutes times 60000, never 0 |
| AutoRefresh.IntervalOfStoredMinutes | src/lib/autoRefresh.ts:8-10 | a stored non-zero number of minutes is used as it is |
| AutoRefresh.IntervalWhenUnset | src/lib/autoRefresh.ts:8-10 | no setting gives 15 minutes |
| AutoRefresh.IntervalWhenZero | src/lib/autoRefresh.ts:9 | '0' falls back to 15 minutes |
| AutoRefresh.IntervalWhenNotANumber | src/lib/autoRefresh.ts:9 | text without digits falls back to 15 minutes |
| AutoRefresh.IntervalIgnoresTrailingText | src/lib/autoRefresh.ts:9 | '30 minutes' is 30 minutes |
| AutoRefresh.Scheduler.constructor | src/lib/autoRefresh.ts:3-4 | the module loads with no timer |
| AutoRefresh.Scheduler.IsRunning | src/lib/autoRefresh.ts:58-60 | running iff a handle is recorded iff exactly one timer is armed |
| AutoRefresh.Scheduler.Stop | src/lib/autoRefresh.ts:43-50 | clears the timer and both fields. When not running it changes nothing |
| AutoRefresh.Scheduler.Start | src/lib/autoRefresh.ts:6-41 | the same period while running is a no-op. Otherwise the old timer is cleared, one fresh timer is armed, and one refresh runs. At most one timer is ever armed, and the old one stays armed only in the no-op case |
| AutoRefresh.Scheduler.Restart | src/lib/autoRefresh.ts:52-55 | always arms one fresh timer with the current setting and refreshes once |
| ImportRoute.ActionOf | src/app/api/admin/import/route.ts:90-100 | null throws. A falsy ip is skipped. A truthy value that cannot be bound throws, and nothing else does. Otherwise the upsert binds the item's ip, and each other field takes its value when truthy and its default otherwise: '' for the text fields, 0 for display_order |
| ImportRoute.UpsertOneLaws | src/app/api/admin/import/route.ts:77-87 | an existing ip keeps its id and row count. A new ip gets the next id. Either way the AUTOINCREMENT counter advances by one. Exactly that row carries the new values, and other ips are unchanged |
| ImportRoute.UpsertAllKeyed | src/app/api/admin/import/route.ts:89-102 | the loop keeps ids below the next id and ips unique |
| ImportRoute.UpsertAllThrows | src/app/api/admin/import/route.ts:89-102 | one throwing item fails the whole batch |
| ImportRoute.LastWriteWins | src/app/api/admin/import/route.ts:89-102 | the last item with an ip decides that row's values |
| ImportRoute.UntouchedRowsKept | src/app/api/admin/import/route.ts:89-102 | a printer whose ip no item upserts keeps its row |
| ImportRoute.Import | src/app/api/admin/import/route.ts:4-111 | a bad body answers 500, a non-array 400, and a table without `consumable_model` 500, all with the table and id counter unchanged. A throwing batch rolls back and answers 500. Otherwise the table is the upsert result and the count is the array length |
| Middleware.Guard | src/middleware.ts:4-21 | non-admin paths and the login page pass. Any other '/admin…' path passes iff the cookie is exactly 'true' |
| Middleware.Route | src/middleware.ts:4-25 | a request is redirected iff the matcher selects it, it is not the login page, and the cookie is not 'true' |
| Middleware.MatchedIsGuarded | src/middleware.ts:6-24 | every matched path is an admin path for the guard |
| Middleware.PrefixQuirks | src/middleware.ts:6-8 | '/administrator' is guarded by the prefix test but not matched. '/admin/login/' is not exempt |
| SupplyBar.Colors | src/components/SupplyBar.tsx:19-42 | waste iff slate. The text is dark exactly on cyan and yellow bars |
| SupplyBar.ColorPrecedence | src/components/SupplyBar.tsx:22-42 | cyan beats magenta, which beats yellow, which beats the dark default |
| SupplyBar.CartridgeIsNotCyan | src/components/SupplyBar.tsx:25 | 'Toner Cartridge C' is not cyan, because of the 'cartridge' exclusion |
| SupplyBar.SpaceCIsCyan | src/components/SupplyBar.tsx:25 | ' c' without 'black' or 'cartridge' is cyan |
| SupplyBar.ShortName | src/components/SupplyBar.tsx:90-104 | the label is one of five, '废料' iff waste, and '黑色' without a colour word |
| SupplyBar.DisplayText | src/components/SupplyBar.tsx:106-112 | U+00A0 for a binary cartridge, else text ending in '%' |
| SupplyBar.DisplayTextReadsBack | src/components/SupplyBar.tsx:111 | the text above a bar parses back to its percent |
| SupplyBar.BinaryLabel | src/components/SupplyBar.tsx:60-65 | '正常' iff percent > 0, else '耗尽' |
| SupplyBar.LiquidHeight | src/components/SupplyBar.tsx:72 | max(percent, 0) |
| SupplyBar.Render | src/components/SupplyBar.tsx:16-88 | a word instead of liquid iff the name holds 'cartridge for lbp'. The label is one of five |
| SupplyBar.BinaryCartridgeExample | src/components/SupplyBar.tsx:17-112 | 'Canon Cartridge for LBP' at 0 shows no number, '耗尽' and '黑色' |
| PrinterCard.Visible | src/components/PrinterCard.tsx:18 | keeps exactly the non-waste supplies and no name with '废' or 'waste' |
| PrinterCard.KeepAppend | src/components/PrinterCard.tsx:18 | a filter keeps order and every copy: filtering a concatenation filters each part, and one element is kept iff it passes |
| PrinterCard.VisibleAppend | src/components/PrinterCard.tsx:18 | the visible supplies of a concatenation are each part's, and one supply is visible iff its name is not a waste name, so the stored order reaches the sort |
| PrinterCard.Score | src/components/PrinterCard.tsx:21-28 | scores are 1, 2, 3, 4 or 10. 'cyan' scores 1. A score of 10 has no 'c', 'm' or 'y' |
| PrinterCard.SortByIsStableSort | src/components/PrinterCard.tsx:20-30 | the order is sorted by key and a permutation, and equal keys keep their input order |
| PrinterCard.ByScoreSortsStably | src/components/PrinterCard.tsx:20-30 | the card's supplies are sorted by score, the same supplies, and stable within a score |
| PrinterCard.SortInPlace | src/components/PrinterCard.tsx:20 | the in-place sort leaves the array holding `SortBy` of its old contents |
| PrinterCard.SortedSupplies | src/components/PrinterCard.tsx:18-30 | `sortedSupplies` is the visible supplies in stable score order |
| PrinterCard.PercentIsRoundedRatio | src/components/PrinterCard.tsx:84 | for a positive capacity: the nearest integer to 100*level/max, unclamped above 100 |
| PrinterCard.PercentIsNotClamped | src/components/PrinterCard.tsx:84 | 3/2 gives 150 and -1/4 gives -25 |
| PrinterCard.KindOf | src/components/PrinterCard.tsx:85 | 'waste' iff the lower-cased name holds 'waste', else 'toner' |
| PrinterCard.CardBody | src/components/PrinterCard.tsx:14-98 | offline iff is_online is not 1. The loading notice shows iff online with no visible supply |
| PrinterCard.CardBars | src/components/PrinterCard.tsx:18-88 | every bar is a non-waste toner bar, and the bars are in score order. Bar i is the properties of the i-th supply of the stably sorted visible list, which holds exactly the visible supplies |
| PrinterCard.WasteNeverRendered | src/components/PrinterCard.tsx:18 | a waste supply never reaches a bar |
| PrinterCard.CartridgeSortsAsCyan | src/components/PrinterCard.tsx:23 | 'Magenta Toner Cartridge' sorts in the cyan place while its bar is painted magenta |

## Left out

- The SNMP transport is left out: sessions, timeouts, retries, GETBULK repetition counts and
  closing. The answers of the probe, the error-state get and the two walks are parameters.
- Floating point is left out. `Math.round(level / max * 100)` is modelled in exact rational
  arithmetic as `(200*level + max) / (2*max)`, and the replacement test uses `real` division.
  Binary rounding of the quotient is not modelled.
- `Js.ParseInt`: no radix-less '0x' prefix and no precision loss above 2^53. The leading
  white space it skips is ECMAScript's full white-space and line-terminator set.
  `Js.ToLower` folds only 'A'–'Z'.
- `Db.Consistent`: the FOREIGN KEY clauses of `printer_status`, `supplies_current` and
  `supplies_history` are not part of the invariant. Only `PrinterService.AddReplacementHistory`,
  which takes any printer id, checks the key. The refresh cycle writes child rows only for
  ids read from `printers`. A `ReplaceSupplies` or `RefreshPrinter` called directly with an
  unknown id is not modelled as failing.
- SQLite mechanics are left out: the SQL text, the WAL pragma, type affinity (a NaN bound as
  NULL), `CURRENT_TIMESTAMP`, and the `added_at`, `last_updated` and `recorded_at` columns.
- `PrinterService.RefreshAllPrinters`: the printers are visited in any order, because the SELECT
  has no ORDER BY. Each printer's poll is a parameter. The `await` of the poll, and any overlap
  with another refresh, are not modelled.
- `AutoRefresh.Scheduler`: the timer's callbacks and the asynchronous refresh are not modelled.
  A start is counted as one immediate refresh, and the armed timers are a map from handle to
  period.
- `ImportRoute.Import`: the prepared statement and transaction of route.ts:12-67 never run, so
  they are not modelled beyond the compile error both statements share when the column
  `consumable_model` is missing. JSON numbers are integers. A boolean, array or object value
  that better-sqlite3 cannot bind is modelled as a throw.
- The getters are left out: `getAllPrinters`, `getPrinterSupplies`, `getReplacementHistory`,
  `getSetting`. Also `addPrinter` and `deleteReplacementHistory`, which are single SQL
  statements. Only the `is_online` fallback to 0 is kept, in `PrinterCard.Printer`.
- `PrinterCard.SortInPlace`: it is an insertion sort proved to give the stable order by score,
  which is what `Array.prototype.sort` must give (it is stable since ES2019). The engine's own
  algorithm is not modelled.
- The markup, CSS classes, colours as hex values, tooltips and history button of the two
  components are left out. Only the values they compute are modelled.

## Findings

| source | as written | input that shows it | evidently intended | confidence | as-written member | corrected member |
|---|---|---|---|---|---|---|
| src/lib/printerService.ts:123,137 | the printer's `supplies_current` rows are deleted before the transaction whose loop looks each colour up, so the lookup only sees rows of the same poll. With distinct colours it never finds one, and with a repeated colour the second insert breaks UNIQUE(printer_id, color) and rolls the transaction back, history insert included. An automatic replacement is therefore never recorded. | a toner read 5/100 in the previous cycle and 95/100 now | the lookup reads the previous cycle's row, so the 90-point jump is logged as an 'auto' history row | not executed | PrinterService.LostReplacement | PrinterService.ReplaceSuppliesIntended |

`PrinterService.ReplaceSupplies` models the transaction as written.
`PrinterService.ReplaceSuppliesIntended` models the intended one and proves that a committed
transaction logs exactly the detected replacements. `PrinterService.RefreshPrinter` and
`PrinterService.RefreshAllPrinters` keep the behaviour as written, and their contracts state
that the history does not change. This is what the program does.
