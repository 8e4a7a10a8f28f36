/**
 * The data model shared by the two bar archives being reconciled: assets,
 * trading days, fixed-point OHLCV rows and the asset directory's lifetimes.
 */
module DailyBars {

  /** An asset is identified by its integer sid. */
  type Asset = int

  /** A trading day, as whole seconds since the Unix epoch (the archive's `day` column). */
  type Day = int

  /**
   * One archive row: prices in thousandths of a currency unit and the share
   * volume, all as stored in the archive's uint32 columns.
   */
  datatype Bar = Bar(open: nat, high: nat, low: nat, close: nat, volume: nat)

  /** The all-zero row: what a zeroed row holds and what a missing row reads as. */
  const Absent: Bar := Bar(0, 0, 0, 0, 0)

  /** A bar source: the rows an archive holds, keyed by asset and day. */
  type Archive = map<(Asset, Day), Bar>

  /** The row the archive returns for one cell; a cell without a row reads as `Absent`. */
  function Get(archive: Archive, asset: Asset, day: Day): Bar
  {
    if (asset, day) in archive then archive[(asset, day)] else Absent
  }

  /** The inclusive window during which an asset is listed. */
  datatype Lifetime = Lifetime(startDate: Day, endDate: Day)
  {
    predicate Contains(day: Day) {
      startDate <= day <= endDate
    }
  }

  /** The asset directory, reduced to what reconciliation needs: each sid's lifetime. */
  type AssetFinder = map<Asset, Lifetime>

  /** The five fields of a row, in the order in which they are compared. */
  datatype Field = Open | High | Low | Close | Volume

  function FieldValue(b: Bar, f: Field): nat
  {
    match f
    case Open => b.open
    case High => b.high
    case Low => b.low
    case Close => b.close
    case Volume => b.volume
  }

  /**
   * Two rows are equal exactly when they agree field by field, so comparing
   * whole rows is the same as comparing the five columns in turn.
   */
  lemma RowsEqualIffFieldsEqual(x: Bar, y: Bar)
    ensures x == y <==> forall f: Field :: FieldValue(x, f) == FieldValue(y, f)
  {
    if forall f: Field :: FieldValue(x, f) == FieldValue(y, f) {
      assert FieldValue(x, Open) == FieldValue(y, Open);
      assert FieldValue(x, High) == FieldValue(y, High);
      assert FieldValue(x, Low) == FieldValue(y, Low);
      assert FieldValue(x, Close) == FieldValue(y, Close);
      assert FieldValue(x, Volume) == FieldValue(y, Volume);
    }
  }

  /**
   * A row whose fields are all zero cannot be told apart from a row that is
   * not there: both read as `Absent`.
   */
  lemma ZeroRowReadsAsMissing(archive: Archive, asset: Asset, day: Day)
    ensures Get(archive[(asset, day) := Absent], asset, day) == Get(archive - {(asset, day)}, asset, day)
    ensures Get(archive - {(asset, day)}, asset, day) == Absent
  {
  }
}
