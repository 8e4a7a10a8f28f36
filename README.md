# Daily-bar reconciliation (`UnpairedDailyBars`)

This project models zipline's daily-bar reconciler `UnpairedDailyBars` and proves properties of the model.

- **Inputs.** The reconciler is built from a trading calendar, an asset finder, two daily-bar readers (archive A and archive B) and the list of assets to compare.
- **What `unpaired(start, end)` does.**
  - It walks the trading days of the query window.
  - It clips those days to each asset's listing lifetime.
  - It compares the two archives' OHLCV rows cell by cell.
  - For each asset with at least one differing row, it reports that asset's mismatch days and the two volumes of each mismatched row.
  - An asset that matches everywhere gets no key.
- **Encoding.** Rows hold fixed-point uint32 columns, produced by the test suite's `BcolzDailyBarWriterFromFrames.to_uint32`:
  - prices are scaled by 1000;
  - volumes are stored as they are;
  - days are converted to whole seconds.
- **Scenarios.** The three scenarios of `tests/data/test_data_checks.py` are proved about this model over the March 2016 test environment:
  - all rows equal;
  - B zeroed on 2016-03-29;
  - A zeroed on 2016-03-29.

The zipline module `zipline/data/data_checks.py` is not part of this model. The model's reconciler follows these rules:

- the ascending calendar is filtered by the window and then by the lifetime;
- whole rows are compared;
- the reported pair is always the volume;
- a window with `start > end` or an asset the finder cannot resolve is a configuration error.

Of these rules, the three tests pin down only the volume pair: a differing row reads 200001 against 0, which no other field gives. Beyond that, they pin down the reported days, which are the trading days that carry rows. The other rules are the model's own choices, which the tests do not tell apart from the alternatives:

- Lifetime clipping: no archive holds rows for equity 2 outside its lifetime, so a window-only filter gives the same results.
- Whole-row comparison: the one differing row also differs in volume, so comparing volume alone gives the same results.
- The two configuration errors: no test calls `unpaired` with `start > end` or with an asset the finder cannot resolve.

When several assets cannot be resolved, the model reports the first one in list order. That choice is the model's own.

Modules:

- `DailyBars` (`daily_bars.dfy`): assets, days in seconds, the fixed-point `Bar`, archives as maps of cells, lifetimes.
- `ColumnEncoding` (`column_encoding.dfy`): `to_uint32`.
- `FrameWriter` (`frame_writer.dfy`): `gen_tables` and the archive a reader sees after the writer stores the encoded frames.
- `DataChecks` (`data_checks.dfy`): the reconciler and `Unpaired`.
- `DataChecksProperties` (`data_checks_properties.dfy`): the properties `Unpaired` promises.
- `DataChecksLoop` (`data_checks_loop.dfy`): `Unpaired` computed by a pass over the assets and, for each asset, a pass over the calendar, proved equal to the function.
- `TestDataChecks` (`test_data_checks.dfy`): the fixtures and the three test cases.

## Model

| member | source | states |
|---|---|---|
| DailyBars.RowsEqualIffFieldsEqual | tests/data/test_data_checks.py:200-205 | two rows are equal exactly when open, high, low, close and volume are each equal, so whole-row comparison is the field-by-field comparison |
| DailyBars.ZeroRowReadsAsMissing | tests/data/test_data_checks.py:200-205 | a row of all zeros reads the same as a cell with no row: both are the all-zero bar |
| ColumnEncoding.CastUint32 | tests/data/test_data_checks.py:41-47 | the uint32 cast yields a value below 2^32, keeps values already in range, and is congruent to its input modulo 2^32 |
| ColumnEncoding.Truncate | tests/data/test_data_checks.py:41-43 | the float-to-integer cast truncates toward zero: it stays within one unit of its input, on the side of zero |
| ColumnEncoding.ToUint32 | tests/data/test_data_checks.py:39-47 | a column is encoded exactly when its name is one of open/high/low/close, volume or day (otherwise nothing is returned); the length is kept and every value fits uint32 |
| ColumnEncoding.PriceRoundTrip | tests/data/test_data_checks.py:40-41 | a price given to the thousandth is stored as that number of thousandths |
| ColumnEncoding.VolumeRoundTrip | tests/data/test_data_checks.py:42-43 | a volume in uint32 range is stored unchanged |
| ColumnEncoding.DayRoundTrip | tests/data/test_data_checks.py:44-47 | a timestamp of s seconds plus a sub-second remainder, in nanoseconds, is stored as s |
| ColumnEncoding.DayMonotone | tests/data/test_data_checks.py:44-47 | within the uint32 range, a later timestamp never encodes to an earlier day |
| FrameWriter.Tables | tests/data/test_data_checks.py:31-37 | the tables `gen_tables` yields: one per asset, in order, each sid paired with its frame; it fails exactly when some asset has no frame, naming the first such asset in list order |
| FrameWriter.TablesErrPersists | tests/data/test_data_checks.py:35-37 | once the pass over a prefix of the assets fails, the whole pass fails with the same asset |
| FrameWriter.GenTables | tests/data/test_data_checks.py:31-37 | the loop over the assets yields exactly `Tables` |
| FrameWriter.EncodedRows | tests/data/test_data_checks.py:39-47 | an encoded frame has one row per frame row, and each stored value fits uint32 |
| FrameWriter.EncodedRow | tests/data/test_data_checks.py:39-47 | row i of the encoded frame is the day and the bar encoded from row i of each column |
| FrameWriter.TableArchive | tests/data/test_data_checks.py:68-75 | a stored table holds cells of its own sid only |
| FrameWriter.WrittenOther | tests/data/test_data_checks.py:68-75 | writing one asset's table leaves every other asset's cells as they were |
| FrameWriter.WrittenOwn | tests/data/test_data_checks.py:68-75 | after one asset's table is written, that asset's cells are read from the table, and days the table has no row for fall through |
| FrameWriter.TableArchiveGet | tests/data/test_data_checks.py:68-75 | a table whose days are distinct has a cell exactly on its days, and each such cell holds that day's row |
| DataChecks.Within | tests/data/test_data_checks.py:109-110 | slicing a day sequence by an inclusive window never lengthens it (its members are `WithinMembers`) |
| DataChecks.Mismatches | tests/data/test_data_checks.py:211-214 | one asset's entry has as many values from A and from B as it has days, and no more days than were compared |
| DataChecks.FirstUnknown | tests/data/test_data_checks.py:66-67 | no asset is reported exactly when every asset resolves; otherwise the one reported is the first asset of the list that does not resolve |
| DataChecks.UnpairedDailyBars.Unpaired | tests/data/test_data_checks.py:215-218 | `start > end` is an invalid range; otherwise the call fails exactly when some configured asset cannot be resolved, naming one such asset; a report has keys only for configured, resolvable assets, and never an empty entry |
| DataChecks.WithinMembers | tests/data/test_data_checks.py:109-110 | a day survives the window exactly when it is one of the days and lies inside the window |
| DataChecks.MismatchesMembers | tests/data/test_data_checks.py:210-219 | a day is in an asset's mismatch days exactly when it was compared and the two rows differ |
| DataChecks.MismatchesVolumes | tests/data/test_data_checks.py:211-214 | the i-th pair of values is the volume of A's row and the volume of B's row on the i-th mismatch day |
| DataChecks.WithinAppend | tests/data/test_data_checks.py:109-110 | slicing a concatenation is the concatenation of the slices |
| DataChecks.WithinAll | tests/data/test_data_checks.py:109-110 | days all inside the window are kept as they are |
| DataChecks.WithinNone | tests/data/test_data_checks.py:109-110 | days all outside the window are dropped |
| DataChecksProperties.WithinAscending | tests/data/test_data_checks.py:109-110 | slicing an ascending calendar yields an ascending sequence |
| DataChecksProperties.MismatchesAscending | tests/data/test_data_checks.py:213 | over ascending days, the mismatch days are ascending |
| DataChecksProperties.MismatchesSwap | tests/data/test_data_checks.py:222-279 | exchanging the archives keeps the mismatch days and exchanges the two value sequences |
| DataChecksProperties.MismatchesSelf | tests/data/test_data_checks.py:105-159 | an archive compared with itself has no mismatch |
| DataChecksProperties.MismatchesLocal | tests/data/test_data_checks.py:96-99 | mismatches over some days depend only on the cells of those days |
| DataChecksProperties.ActiveMembers | tests/data/test_data_checks.py:89-102 | an asset is compared on a day exactly when the day is a calendar day, inside the query window and inside the asset's lifetime |
| DataChecksProperties.UnpairedCells | tests/data/test_data_checks.py:210-219 | an (asset, day) cell is reported exactly when the asset is configured and resolvable, the day is a calendar day inside the window and the lifetime, and the two rows differ |
| DataChecksProperties.UnpairedOmitsMatchingAssets | tests/data/test_data_checks.py:192-199 | a configured asset has no key exactly when the two archives agree on every day it is compared on |
| DataChecksProperties.UnpairedReportsVolumes | tests/data/test_data_checks.py:200-205 | every reported pair is the two rows' volumes, whichever fields differ |
| DataChecksProperties.UnpairedDaysAscending | tests/data/test_data_checks.py:213 | over an ascending calendar, each asset's mismatch days are strictly ascending |
| DataChecksProperties.UnpairedSwap | tests/data/test_data_checks.py:222-279 | exchanging the archives fails in the same way, or reports the same assets and days with each value pair exchanged |
| DataChecksProperties.UnpairedSelf | tests/data/test_data_checks.py:153-159 | an archive compared with itself yields the empty report, for any valid window and any resolvable assets |
| DataChecksProperties.AssetMismatchesLocal | tests/data/test_data_checks.py:96-99 | one asset's entry depends only on that asset's cells on its compared days |
| DataChecksProperties.UnpairedIgnoresUncomparedCells | tests/data/test_data_checks.py:96-99 | archives that agree on every compared cell give the same result: rows outside a lifetime, outside the window or off the calendar are never read |
| DataChecksLoop.ActiveSnoc | tests/data/test_data_checks.py:89-102 | one more calendar day is compared for an asset exactly when it is inside the window and the lifetime |
| DataChecksLoop.AssetPass | tests/data/test_data_checks.py:210-219 | a pass over the calendar that skips days outside the window or the lifetime, and appends each differing day with its volumes, computes the asset's mismatches |
| DataChecksLoop.CollectPass | tests/data/test_data_checks.py:211-214 | a pass over the configured assets that keeps the non-empty entries computes the report |
| DataChecksLoop.ComputeUnpaired | tests/data/test_data_checks.py:155-158 | the checks, then the two passes, compute exactly `Unpaired`, errors included |
| TestDataChecks.FixtureDaysAre | tests/data/test_data_checks.py:109-110 | the trading days between 2016-03-25 and 2016-03-30 are the 28th, 29th and 30th (the 25th is Good Friday) |
| TestDataChecks.RowDaysAreFixtureDays | tests/data/test_data_checks.py:110 | the fixture frames' rows sit on exactly those sliced days |
| TestDataChecks.FixtureTables | tests/data/test_data_checks.py:65-72 | for a fixture, `gen_tables` over sids 1 and 2 yields both frames, in order |
| TestDataChecks.FrameCells | tests/data/test_data_checks.py:112-127 | a stored fixture frame gives its k-th row on the k-th row day and reads as `Absent` on any other day |
| TestDataChecks.FixtureCells | tests/data/test_data_checks.py:65-75 | in a fixture's archive, each equity's cells are those of its own stored frame |
| TestDataChecks.Equity2MiddleRow | tests/data/test_data_checks.py:177-184 | equity 2's middle row is stored as (205200, 210200, 200200, 206200, 200001), and the zeroed one as all zeros |
| TestDataChecks.SameFrameMatches | tests/data/test_data_checks.py:192-199 | an equity with the same frame in both fixtures has no mismatch |
| TestDataChecks.MonthKeepsCalendar | tests/data/test_data_checks.py:55-56 | every trading day of the environment lies within 2016-03-01..31 |
| TestDataChecks.Equity2Sessions | tests/data/test_data_checks.py:96-99 | the trading days in equity 2's lifetime are 2016-03-28..31 |
| TestDataChecks.Equity2ActiveDays | tests/data/test_data_checks.py:96-99 | over the whole environment, equity 2 is compared on 2016-03-28..31 only |
| TestDataChecks.ArchiveCell | tests/data/test_data_checks.py:65-75 | each cell of a fixture archive is its frame's row on that day, or `Absent` |
| TestDataChecks.ZeroedCells | tests/data/test_data_checks.py:200-207 | zeroing equity 2's middle row changes its stored cell on 2016-03-29 only, where the stored all-zero row reads as `Absent` |
| TestDataChecks.SecondDayOnly | tests/data/test_data_checks.py:210-214 | over four days on which the archives differ only on the second, where B reads as `Absent`, that single cell is reported with A's volume and 0 |
| TestDataChecks.MissingInBEquity2 | tests/data/test_data_checks.py:211-214 | in the missing-in-B fixture, equity 2's entry is ([2016-03-29], [200001], [0]) |
| TestDataChecks.ReportOfSecond | tests/data/test_data_checks.py:211-214 | over sids 1 and 2, when only sid 2 has mismatches, the report is exactly sid 2's entry |
| TestDataChecks.TestMissingInB | tests/data/test_data_checks.py:162-219 | `test_missing_in_b`: the result is exactly {2: ([2016-03-29], [200001], [0])} |
| TestDataChecks.MissingInAEquity2 | tests/data/test_data_checks.py:270-274 | in the missing-in-A fixture, equity 2's entry is ([2016-03-29], [0], [200001]) |
| TestDataChecks.TestMissingInA | tests/data/test_data_checks.py:222-279 | `test_missing_in_a`: the result is exactly {2: ([2016-03-29], [0], [200001])} |
| TestDataChecks.TestAllEqual | tests/data/test_data_checks.py:105-159 | `test_equal`: identical fixtures give the empty report |

## Left out

- **Storage.** bcolz `ctable` storage and the temporary directories are not modelled, nor are the `BcolzDailyBarReader` and `BcolzDailyBarWriter` internals. An archive is the map of cells a reader returns. A cell without a row reads as the all-zero bar, which is also what a zeroed row holds.
- **Writer checks.** The writer's own checks run while it writes: calendar coverage, and the row order of its tables. They belong to the `us_equity_pricing` writer, which is not part of this model.
- **Dates.** pandas frames, `Timestamp`, time zones and `slice_indexer` are not modelled. Days are integer seconds since the epoch. The calendar slice is a filter by the inclusive window, and the calendar is the 22 NYSE sessions of March 2016.
- **Environment fixtures.** The trading-environment and asset-finder fixtures are not modelled. The finder is reduced to a map from sid to lifetime. Asset handles are their integer sids.
- Floating point: numbers are exact reals, so binary floating-point rounding of `array * 1000` is not modelled. For the 24 fixture prices this changes nothing: each product is exact in float64 (`205.2 * 1000` is `205200.0`). Other prices can differ: `1.005 * 1000` is `1004.9999999999999` in float64 and truncates to 1004, where the exact product gives 1005.
- ColumnEncoding.CastUint32: a float outside the uint32 range has no defined numpy cast. It is modelled as truncation followed by reduction modulo 2^32.
- Day division: the division of nanoseconds is integer floor division, as Python 2's `/` on integers. For the whole-second timestamps of the tests this matches Python 3's true division followed by truncation. Under Python 3 a remainder close to a whole second can round up: 1459209600·10^9 + 999999999 ns divides to 1459209601.0 in float64, so `DayRoundTrip`'s sub-second case holds for integer division only.
- **Generators.** The laziness of the `gen_tables` generator is not modelled. `GenTables` builds the whole sequence, and a missing frame ends it with the missing sid, as the key error would.
- **Concurrency.** Per-asset parallel execution, the partial-failure result for archive read errors, and timeouts are not modelled. The result is a pure function of its inputs, and reads cannot fail in this model.
- **Start-up state.** `init_class_fixtures` and `init_instance_fixtures` store their objects as test-case state. Here they are the values `ArchiveOf` and `Comparison`, because nothing updates them afterwards.
- DataChecks.FirstUnknown: when several configured assets cannot be resolved, the model names the first in list order. The implementation is not part of this model, so its choice is not known.
- Report field: the reported field is the constant `DataChecks.ReportField`, set to `Volume`. A different diagnostic field is not exercised.
