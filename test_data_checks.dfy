/**
 * The three reconciliation scenarios of the test suite, over March 2016:
 * two equities, rows on the trading days 2016-03-28..30, identical
 * archives, then one archive with asset 2's middle row zeroed, then the
 * other one.
 */
module TestDataChecks {
  import opened Wrappers
  import opened DailyBars
  import opened ColumnEncoding
  import opened FrameWriter
  import opened DataChecks
  import opened DataChecksProperties

  /** Midnight UTC of 2016-03-`n`, in seconds since the epoch. */
  function MarchDay(n: int): Day
  {
    1456790400 + (n - 1) * 86400
  }

  /** March 2016 up to the 24th: the exchange was closed on weekends and on Good Friday, the 25th. */
  function EarlySessions(): seq<Day>
  {
    [MarchDay(1), MarchDay(2), MarchDay(3), MarchDay(4), MarchDay(7), MarchDay(8), MarchDay(9),
     MarchDay(10), MarchDay(11), MarchDay(14), MarchDay(15), MarchDay(16), MarchDay(17), MarchDay(18),
     MarchDay(21), MarchDay(22), MarchDay(23), MarchDay(24)]
  }

  /** The trading days of the test environment, 2016-03-01..2016-03-31. */
  function TradingDays(): seq<Day>
  {
    EarlySessions() + [MarchDay(28), MarchDay(29), MarchDay(30), MarchDay(31)]
  }

  /** The days the fixture frames have rows for: the trading days in 2016-03-25..2016-03-30. */
  function FixtureDays(): seq<Day>
  {
    Within(TradingDays(), MarchDay(25), MarchDay(30))
  }

  lemma FixtureDaysAre()
    ensures FixtureDays() == [MarchDay(28), MarchDay(29), MarchDay(30)]
  {
    var late := [MarchDay(28), MarchDay(29), MarchDay(30)];
    assert TradingDays() == EarlySessions() + (late + [MarchDay(31)]);
    WithinAppend(EarlySessions(), late + [MarchDay(31)], MarchDay(25), MarchDay(30));
    WithinNone(EarlySessions(), MarchDay(25), MarchDay(30));
    WithinAll(late, MarchDay(25), MarchDay(30));
    WithinSnoc(late, MarchDay(31), MarchDay(25), MarchDay(30));
  }

  /** A `day` column: each of `days` at midnight, in nanoseconds since the epoch. */
  function Nanos(days: seq<Day>): seq<real>
  {
    seq(|days|, i requires 0 <= i < |days| => (days[i] * NanosPerSecond) as real)
  }

  /** The row days of every fixture frame, 2016-03-28, -29 and -30. */
  function RowDays(): seq<Day>
  {
    [MarchDay(28), MarchDay(29), MarchDay(30)]
  }

  /** The fixture frames' rows sit exactly on the trading days between 2016-03-25 and 2016-03-30. */
  lemma RowDaysAreFixtureDays()
    ensures RowDays() == FixtureDays()
  {
    FixtureDaysAre();
  }

  function Equity1Frame(): Frame
  {
    Frame([105.1, 105.2, 105.3], [110.1, 110.2, 110.3], [100.1, 100.2, 100.3], [106.1, 106.2, 106.3],
          [100000.0, 100001.0, 100002.0], Nanos(RowDays()))
  }

  function Equity2Frame(): Frame
  {
    Frame([205.1, 205.2, 205.3], [210.1, 210.2, 210.3], [200.1, 200.2, 200.3], [206.1, 206.2, 206.3],
          [200000.0, 200001.0, 200002.0], Nanos(RowDays()))
  }

  /** Equity 2's frame with the middle row set to zero in every column. */
  function Equity2ZeroedFrame(): Frame
  {
    Frame([205.1, 0.0, 205.3], [210.1, 0.0, 210.3], [200.1, 0.0, 200.3], [206.1, 0.0, 206.3],
          [200000.0, 0.0, 200002.0], Nanos(RowDays()))
  }

  /** The asset directory of the test environment: both equities' listing windows. */
  function EquitiesInfo(): AssetFinder
  {
    map[1 := Lifetime(MarchDay(1), MarchDay(31)), 2 := Lifetime(MarchDay(28), MarchDay(31))]
  }

  /** All sids of the directory, as retrieved for the writer and the reconciler. */
  function Sids(): seq<Asset>
  {
    [1, 2]
  }

  /** Fixture data for both equities. */
  predicate IsFixture(frames: map<Asset, Frame>)
  {
    1 in frames && 2 in frames && frames[1].WellFormed() && frames[2].WellFormed()
  }

  /** The archive the writer produces from the tables `gen_tables` yields for a fixture, as its reader sees it. */
  function ArchiveOf(frames: map<Asset, Frame>): Archive
    requires IsFixture(frames)
  {
    FixtureTables(frames);
    WrittenArchive(Tables(frames, Sids()).value)
  }

  /** The reconciler the tests construct over two fixtures. */
  function Comparison(framesA: map<Asset, Frame>, framesB: map<Asset, Frame>): UnpairedDailyBars
    requires IsFixture(framesA) && IsFixture(framesB)
  {
    UnpairedDailyBars(TradingDays(), EquitiesInfo(), ArchiveOf(framesA), ArchiveOf(framesB), Sids())
  }

  /** What `gen_tables` yields for a fixture is what `ArchiveOf` stores. */
  lemma FixtureTables(frames: map<Asset, Frame>)
    requires IsFixture(frames)
    ensures Tables(frames, Sids()) == Ok([(1, frames[1]), (2, frames[2])])
  {
    var sids := Sids();
    assert sids[0] == 1 && sids[1] == 2;
    var t := Tables(frames, sids);
    assert t.Ok?;
    assert t.value[0] == (1, frames[1]) && t.value[1] == (2, frames[2]);
    assert t.value == [(1, frames[1]), (2, frames[2])];
  }

  function AllEqualFramesA(): map<Asset, Frame> { map[1 := Equity1Frame(), 2 := Equity2Frame()] }
  function AllEqualFramesB(): map<Asset, Frame> { map[1 := Equity1Frame(), 2 := Equity2Frame()] }
  function MissingInBFramesA(): map<Asset, Frame> { map[1 := Equity1Frame(), 2 := Equity2Frame()] }
  function MissingInBFramesB(): map<Asset, Frame> { map[1 := Equity1Frame(), 2 := Equity2ZeroedFrame()] }
  function MissingInAFramesA(): map<Asset, Frame> { map[1 := Equity1Frame(), 2 := Equity2ZeroedFrame()] }
  function MissingInAFramesB(): map<Asset, Frame> { map[1 := Equity1Frame(), 2 := Equity2Frame()] }

  /** Row `k` of a frame, as the writer encodes it. */
  function RowBar(f: Frame, k: nat): Bar
    requires f.WellFormed() && k < |f.day|
  {
    Bar(EncodePrice(f.open[k]), EncodePrice(f.high[k]), EncodePrice(f.low[k]), EncodePrice(f.close[k]),
        EncodeVolume(f.volume[k]))
  }

  /** A stored fixture frame returns its k-th row on the k-th row day and reads as `Absent` on any other day. */
  lemma FrameCells(sid: Asset, f: Frame, d: Day)
    requires f.WellFormed() && f.day == Nanos(RowDays())
    ensures forall k :: 0 <= k < 3 && d == RowDays()[k] ==> Get(TableArchive(sid, EncodedRows(f)), sid, d) == RowBar(f, k)
    ensures d !in RowDays() ==> Get(TableArchive(sid, EncodedRows(f)), sid, d) == Absent
  {
    var rows := EncodedRows(f);
    var days := RowDays();
    forall k | 0 <= k < 3 ensures rows[k] == (days[k], RowBar(f, k)) {
      EncodedRow(f, k);
      DayRoundTrip(days[k], 0);
    }
    TableArchiveGet(sid, rows, d);
  }

  /** In a fixture's archive, each equity's cells are those of its own frame. */
  lemma FixtureCells(frames: map<Asset, Frame>, asset: Asset, d: Day)
    requires IsFixture(frames) && (asset == 1 || asset == 2)
    ensures Get(ArchiveOf(frames), asset, d) == Get(TableArchive(asset, EncodedRows(frames[asset])), asset, d)
  {
    FixtureTables(frames);
    var t1, t2 := (1, frames[1]), (2, frames[2]);
    assert [t1, t2] == [t1] + [t2] && [t1] == [] + [t1];
    if asset == 1 {
      WrittenOther([t1], 2, frames[2], 1, d);
      WrittenOwn([], 1, frames[1], d);
    } else {
      WrittenOwn([t1], 2, frames[2], d);
      WrittenOther([], 1, frames[1], 2, d);
    }
  }

  /** Equity 2's bar on 2016-03-29: prices in thousandths and the volume. */
  function Equity2MiddleBar(): Bar
  {
    Bar(205200, 210200, 200200, 206200, 200001)
  }

  /** Equity 2's middle row, as stored, and its zeroed counterpart. */
  lemma Equity2MiddleRow()
    ensures RowBar(Equity2Frame(), 1) == Equity2MiddleBar()
    ensures RowBar(Equity2ZeroedFrame(), 1) == Absent
  {
    PriceRoundTrip(205200);
    PriceRoundTrip(210200);
    PriceRoundTrip(200200);
    PriceRoundTrip(206200);
    PriceRoundTrip(0);
    VolumeRoundTrip(200001);
    VolumeRoundTrip(0);
  }

  /** An equity whose frame is the same in both fixtures has no mismatch, over any window. */
  lemma SameFrameMatches(framesA: map<Asset, Frame>, framesB: map<Asset, Frame>, asset: Asset, start: Day, end: Day)
    requires IsFixture(framesA) && IsFixture(framesB) && (asset == 1 || asset == 2)
    requires framesA[asset] == framesB[asset]
    ensures Comparison(framesA, framesB).AssetMismatches(asset, start, end) == ([], [], [])
  {
    var recon := Comparison(framesA, framesB);
    forall d ensures Get(recon.readerA, asset, d) == Get(recon.readerB, asset, d) {
      FixtureCells(framesA, asset, d);
      FixtureCells(framesB, asset, d);
    }
    var days := recon.ActiveDays(asset, start, end);
    MismatchesLocal(days, asset, recon.readerA, recon.readerB, recon.readerA, recon.readerA);
    MismatchesSelf(days, asset, recon.readerA);
  }

  /** Every trading day of the environment lies in 2016-03-01..31. */
  lemma MonthKeepsCalendar()
    ensures Within(TradingDays(), MarchDay(1), MarchDay(31)) == TradingDays()
  {
    var late := [MarchDay(28), MarchDay(29), MarchDay(30), MarchDay(31)];
    assert TradingDays() == EarlySessions() + late;
    WithinAppend(EarlySessions(), late, MarchDay(1), MarchDay(31));
    WithinAll(EarlySessions(), MarchDay(1), MarchDay(31));
    WithinAll(late, MarchDay(1), MarchDay(31));
  }

  /** The trading days in equity 2's lifetime, 2016-03-28..31. */
  lemma Equity2Sessions()
    ensures Within(TradingDays(), MarchDay(28), MarchDay(31)) == [MarchDay(28), MarchDay(29), MarchDay(30), MarchDay(31)]
  {
    var late := [MarchDay(28), MarchDay(29), MarchDay(30), MarchDay(31)];
    assert TradingDays() == EarlySessions() + late;
    WithinAppend(EarlySessions(), late, MarchDay(28), MarchDay(31));
    WithinNone(EarlySessions(), MarchDay(28), MarchDay(31));
    WithinAll(late, MarchDay(28), MarchDay(31));
  }

  /** Over the whole environment, equity 2 is compared on 2016-03-28..31, the trading days of its listing. */
  lemma Equity2ActiveDays(recon: UnpairedDailyBars)
    requires recon.calendar == TradingDays() && recon.finder == EquitiesInfo()
    ensures recon.ActiveDays(2, MarchDay(1), MarchDay(31)) == [MarchDay(28), MarchDay(29), MarchDay(30), MarchDay(31)]
  {
    MonthKeepsCalendar();
    Equity2Sessions();
  }

  /** What a stored fixture frame returns on day `d`: the row on that row day, `Absent` otherwise. */
  function StoredCell(f: Frame, d: Day): Bar
    requires f.WellFormed() && |f.day| == 3
  {
    if d == MarchDay(28) then RowBar(f, 0)
    else if d == MarchDay(29) then RowBar(f, 1)
    else if d == MarchDay(30) then RowBar(f, 2)
    else Absent
  }

  /** Each cell of a fixture's archive is the stored cell of that equity's frame. */
  lemma ArchiveCell(frames: map<Asset, Frame>, asset: Asset, d: Day)
    requires IsFixture(frames) && (asset == 1 || asset == 2)
    requires frames[asset].day == Nanos(RowDays())
    ensures Get(ArchiveOf(frames), asset, d) == StoredCell(frames[asset], d)
  {
    FixtureCells(frames, asset, d);
    FrameCells(asset, frames[asset], d);
    var days := RowDays();
    assert days[0] == MarchDay(28) && days[1] == MarchDay(29) && days[2] == MarchDay(30);
  }

  /** Zeroing equity 2's middle row changes its stored cells on 2016-03-29 only, where the stored all-zero row reads as `Absent`. */
  lemma ZeroedCells(d: Day)
    ensures StoredCell(Equity2Frame(), d) == (if d == MarchDay(29) then Equity2MiddleBar() else StoredCell(Equity2ZeroedFrame(), d))
    ensures StoredCell(Equity2ZeroedFrame(), MarchDay(29)) == Absent
  {
    Equity2MiddleRow();
  }

  /** Over four days on which two archives differ only on the second, where B reads as `Absent`, that one cell is reported. */
  lemma SecondDayOnly(days: seq<Day>, asset: Asset, a: Archive, b: Archive)
    requires |days| == 4
    requires Get(a, asset, days[0]) == Get(b, asset, days[0])
    requires Get(a, asset, days[1]) != Absent && Get(b, asset, days[1]) == Absent
    requires Get(a, asset, days[2]) == Get(b, asset, days[2])
    requires Get(a, asset, days[3]) == Get(b, asset, days[3])
    ensures Mismatches(days, asset, a, b) == ([days[1]], [Get(a, asset, days[1]).volume], [0])
  {
    assert days[..3] == days[..2] + [days[2]];
    assert days[..2] == days[..1] + [days[1]];
    assert days[..1] == [] + [days[0]];
    assert days == days[..3] + [days[3]];
    MismatchesSnoc([], days[0], asset, a, b);
    var none: Entry := ([], [], []);
    assert Mismatches(days[..1], asset, a, b) == none;
    MismatchesSnoc(days[..1], days[1], asset, a, b);
    assert none.0 + [days[1]] == [days[1]] && none.1 + [Get(a, asset, days[1]).volume] == [Get(a, asset, days[1]).volume];
    assert none.2 + [0] == [0];
    MismatchesSnoc(days[..2], days[2], asset, a, b);
    MismatchesSnoc(days[..3], days[3], asset, a, b);
  }

  /** Asset 2's mismatches in the missing-in-B fixture: the one cell on 2016-03-29. */
  lemma MissingInBEquity2()
    ensures Comparison(MissingInBFramesA(), MissingInBFramesB()).AssetMismatches(2, MarchDay(1), MarchDay(31)) ==
              ([MarchDay(29)], [200001], [0])
  {
    var recon := Comparison(MissingInBFramesA(), MissingInBFramesB());
    var a, b := recon.readerA, recon.readerB;
    var days := [MarchDay(28), MarchDay(29), MarchDay(30), MarchDay(31)];
    Equity2ActiveDays(recon);
    forall d ensures Get(a, 2, d) == (if d == MarchDay(29) then Equity2MiddleBar() else Get(b, 2, d)) {
      ArchiveCell(MissingInBFramesA(), 2, d);
      ArchiveCell(MissingInBFramesB(), 2, d);
      ZeroedCells(d);
    }
    assert Get(b, 2, MarchDay(29)) == Absent by {
      ArchiveCell(MissingInBFramesB(), 2, MarchDay(29));
      ZeroedCells(MarchDay(29));
    }
    SecondDayOnly(days, 2, a, b);
  }

  /** Over the two known sids, the report holds exactly the entry of the one sid that has mismatches. */
  lemma ReportOfSecond(recon: UnpairedDailyBars, start: Day, end: Day, e: Entry)
    requires recon.assets == Sids() && recon.finder == EquitiesInfo() && start <= end
    requires recon.AssetMismatches(1, start, end) == ([], [], [])
    requires recon.AssetMismatches(2, start, end) == e && |e.0| > 0
    ensures recon.Unpaired(start, end) == Ok(map[2 := e])
  {
    assert FirstUnknown(Sids(), EquitiesInfo()) == None;
    assert recon.Collect(Sids(), start, end) == map[2 := e];
  }

  /**
   * `UnpairedDailyBarMissingInB.test_missing_in_b`: B's asset-2 row on
   * 2016-03-29 is zeroed while A's is real, so exactly that cell is
   * reported, with the volumes 200001 and 0; asset 1 has no key.
   */
  lemma TestMissingInB()
    ensures Comparison(MissingInBFramesA(), MissingInBFramesB()).Unpaired(MarchDay(1), MarchDay(31)) ==
              Ok(map[2 := ([MarchDay(29)], [200001], [0])])
  {
    SameFrameMatches(MissingInBFramesA(), MissingInBFramesB(), 1, MarchDay(1), MarchDay(31));
    MissingInBEquity2();
    ReportOfSecond(Comparison(MissingInBFramesA(), MissingInBFramesB()), MarchDay(1), MarchDay(31),
                   ([MarchDay(29)], [200001], [0]));
  }

  /** Asset 2's mismatches in the missing-in-A fixture: the same cell, with the value columns exchanged. */
  lemma MissingInAEquity2()
    ensures Comparison(MissingInAFramesA(), MissingInAFramesB()).AssetMismatches(2, MarchDay(1), MarchDay(31)) ==
              ([MarchDay(29)], [0], [200001])
  {
    var forward := Comparison(MissingInBFramesA(), MissingInBFramesB());
    assert MissingInAFramesA() == MissingInBFramesB() && MissingInAFramesB() == MissingInBFramesA();
    MissingInBEquity2();
    MismatchesSwap(forward.ActiveDays(2, MarchDay(1), MarchDay(31)), 2, forward.readerA, forward.readerB);
  }

  /**
   * `UnpairedDailyBarMissingInA.test_missing_in_a`: the mirror image, A's
   * asset-2 row on 2016-03-29 is zeroed, so the same cell is reported with
   * the volumes 0 and 200001.
   */
  lemma TestMissingInA()
    ensures Comparison(MissingInAFramesA(), MissingInAFramesB()).Unpaired(MarchDay(1), MarchDay(31)) ==
              Ok(map[2 := ([MarchDay(29)], [0], [200001])])
  {
    SameFrameMatches(MissingInAFramesA(), MissingInAFramesB(), 1, MarchDay(1), MarchDay(31));
    MissingInAEquity2();
    ReportOfSecond(Comparison(MissingInAFramesA(), MissingInAFramesB()), MarchDay(1), MarchDay(31),
                   ([MarchDay(29)], [0], [200001]));
  }

  /** `UnpairedDailyBarAllEqual.test_equal`: identical archives yield an empty report. */
  lemma TestAllEqual()
    ensures Comparison(AllEqualFramesA(), AllEqualFramesB()).Unpaired(MarchDay(1), MarchDay(31)) == Ok(map[])
  {
    var recon := Comparison(AllEqualFramesA(), AllEqualFramesB());
    assert AllEqualFramesA() == AllEqualFramesB();
    assert FirstUnknown(Sids(), EquitiesInfo()) == None;
    UnpairedSelf(recon, MarchDay(1), MarchDay(31));
  }
}
