/**
 * The test suite's `BcolzDailyBarWriterFromFrames`: each asset's frame of
 * float columns is handed out by `gen_tables`, encoded column by column
 * with `to_uint32`, and stored; a reader then returns one row per
 * (asset, day). On-disk storage itself is reduced to the map of rows that
 * the reader sees.
 */
module FrameWriter {
  import opened Wrappers
  import opened DailyBars
  import opened ColumnEncoding

  /** One asset's frame: the columns of a pandas frame, one entry per row. */
  datatype Frame = Frame(
    open: seq<real>,
    high: seq<real>,
    low: seq<real>,
    close: seq<real>,
    volume: seq<real>,
    day: seq<real>)
  {
    /** All columns have one entry per row, as in any frame. */
    predicate WellFormed()
    {
      |open| == |day| && |high| == |day| && |low| == |day| && |close| == |day| && |volume| == |day|
    }
  }

  /**
   * The tables `gen_tables` yields for `assets`, in order: each asset's sid
   * with its frame. A missing frame raises a key error, reported here as
   * the first asset without one.
   */
  function Tables(frames: map<Asset, Frame>, assets: seq<Asset>): (r: Result<seq<(Asset, Frame)>, Asset>)
    ensures r.Ok? <==> forall a :: a in assets ==> a in frames
    ensures r.Ok? ==>
              && |r.value| == |assets|
              && forall i :: 0 <= i < |assets| ==> assets[i] in frames && r.value[i] == (assets[i], frames[assets[i]])
    ensures r.Err? ==> r.error in assets && r.error !in frames
    ensures r.Err? ==> exists i :: 0 <= i < |assets| && assets[i] == r.error &&
                         forall k :: 0 <= k < i ==> assets[k] in frames
  {
    if assets == [] then Ok([])
    else
      var init, last := assets[..|assets| - 1], assets[|assets| - 1];
      assert assets == init + [last];
      match Tables(frames, init)
      case Err(missing) =>
        ghost var i :| 0 <= i < |init| && init[i] == missing && forall k :: 0 <= k < i ==> init[k] in frames;
        assert assets[i] == missing;
        Err(missing)
      case Ok(tables) =>
        if last in frames then Ok(tables + [(last, frames[last])])
        else
          assert forall k :: 0 <= k < |init| ==> assets[k] == init[k];
          Err(last)
  }

  /** Once a prefix of the assets fails, the whole sequence fails with the same asset. */
  lemma {:induction false} TablesErrPersists(frames: map<Asset, Frame>, assets: seq<Asset>, k: nat)
    requires k <= |assets| && Tables(frames, assets[..k]).Err?
    ensures Tables(frames, assets) == Tables(frames, assets[..k])
    decreases |assets| - k
  {
    if k < |assets| {
      assert assets[..k + 1][..k] == assets[..k];
      TablesErrPersists(frames, assets, k + 1);
    } else {
      assert assets[..k] == assets;
    }
  }

  /** `gen_tables`: a pass over the assets that looks up each one's frame. */
  method GenTables(frames: map<Asset, Frame>, assets: seq<Asset>) returns (r: Result<seq<(Asset, Frame)>, Asset>)
    ensures r == Tables(frames, assets)
  {
    var tables: seq<(Asset, Frame)> := [];
    for i := 0 to |assets|
      invariant Tables(frames, assets[..i]) == Ok(tables)
    {
      var asset := assets[i];
      assert assets[..i + 1][..i] == assets[..i];
      if asset !in frames {
        TablesErrPersists(frames, assets, i + 1);
        return Err(asset);
      }
      tables := tables + [(asset, frames[asset])];
    }
    assert assets[..|assets|] == assets;
    return Ok(tables);
  }

  /** The rows of a frame after its columns are encoded: each row's day and its bar. */
  function EncodedRows(f: Frame): (rows: seq<(Day, Bar)>)
    requires f.WellFormed()
    ensures |rows| == |f.day|
    ensures forall i :: 0 <= i < |rows| ==>
              rows[i].0 < Uint32Modulus && rows[i].1.open < Uint32Modulus && rows[i].1.high < Uint32Modulus &&
              rows[i].1.low < Uint32Modulus && rows[i].1.close < Uint32Modulus && rows[i].1.volume < Uint32Modulus
  {
    var o, h, l, c := ToUint32(f.open, "open").value, ToUint32(f.high, "high").value,
                      ToUint32(f.low, "low").value, ToUint32(f.close, "close").value;
    var v, d := ToUint32(f.volume, "volume").value, ToUint32(f.day, "day").value;
    seq(|f.day|, i requires 0 <= i < |f.day| => (d[i], Bar(o[i], h[i], l[i], c[i], v[i])))
  }

  /** Row `i` of an encoded frame holds the encodings of row `i` of each column. */
  lemma EncodedRow(f: Frame, i: nat)
    requires f.WellFormed() && i < |f.day|
    ensures EncodedRows(f)[i] ==
              (EncodeDay(f.day[i]),
               Bar(EncodePrice(f.open[i]), EncodePrice(f.high[i]), EncodePrice(f.low[i]),
                   EncodePrice(f.close[i]), EncodeVolume(f.volume[i])))
  {
  }

  /** The cells one stored table provides: its rows under its sid, a later row for a day winning. */
  function TableArchive(sid: Asset, rows: seq<(Day, Bar)>): (r: Archive)
    ensures forall k :: k in r ==> k.0 == sid
  {
    if rows == [] then map[]
    else
      var last := rows[|rows| - 1];
      TableArchive(sid, rows[..|rows| - 1])[(sid, last.0) := last.1]
  }

  /** What a reader sees after the writer stored every table. */
  function WrittenArchive(tables: seq<(Asset, Frame)>): Archive
    requires forall i :: 0 <= i < |tables| ==> tables[i].1.WellFormed()
  {
    if tables == [] then map[]
    else
      var last := tables[|tables| - 1];
      WrittenArchive(tables[..|tables| - 1]) + TableArchive(last.0, EncodedRows(last.1))
  }

  /** A table does not touch the cells of any other asset. */
  lemma WrittenOther(tables: seq<(Asset, Frame)>, sid: Asset, f: Frame, asset: Asset, day: Day)
    requires forall i :: 0 <= i < |tables| ==> tables[i].1.WellFormed()
    requires f.WellFormed() && sid != asset
    ensures Get(WrittenArchive(tables + [(sid, f)]), asset, day) == Get(WrittenArchive(tables), asset, day)
  {
    assert (tables + [(sid, f)])[..|tables|] == tables;
  }

  /** A table's own cells are read from it; days it has no row for fall through. */
  lemma WrittenOwn(tables: seq<(Asset, Frame)>, sid: Asset, f: Frame, day: Day)
    requires forall i :: 0 <= i < |tables| ==> tables[i].1.WellFormed()
    requires f.WellFormed()
    ensures var own := TableArchive(sid, EncodedRows(f));
            Get(WrittenArchive(tables + [(sid, f)]), sid, day) ==
              if (sid, day) in own then own[(sid, day)] else Get(WrittenArchive(tables), sid, day)
  {
    assert (tables + [(sid, f)])[..|tables|] == tables;
  }

  /** A table whose days are distinct returns, for each of its days, that day's row and nothing for others. */
  lemma {:induction false} TableArchiveGet(sid: Asset, rows: seq<(Day, Bar)>, day: Day)
    requires forall i, j :: 0 <= i < j < |rows| ==> rows[i].0 != rows[j].0
    ensures (sid, day) in TableArchive(sid, rows) <==> exists i :: 0 <= i < |rows| && rows[i].0 == day
    ensures forall i :: 0 <= i < |rows| && rows[i].0 == day ==> TableArchive(sid, rows)[(sid, day)] == rows[i].1
  {
    if rows != [] {
      var init := rows[..|rows| - 1];
      TableArchiveGet(sid, init, day);
      if (exists i :: 0 <= i < |rows| && rows[i].0 == day) && rows[|rows| - 1].0 != day {
        var i :| 0 <= i < |rows| && rows[i].0 == day;
        assert init[i] == rows[i];
      }
    }
  }
}
