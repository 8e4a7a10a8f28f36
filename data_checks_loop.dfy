/**
 * `Unpaired` computed the way an implementation walks the data: one pass
 * over the assets, and for each asset one ascending pass over the calendar
 * that appends every mismatch to that asset's own sequences before the
 * non-empty ones are gathered into the report.
 */
module DataChecksLoop {
  import opened Wrappers
  import opened DailyBars
  import opened DataChecks

  lemma ActiveSnoc(days: seq<Day>, x: Day, start: Day, end: Day, life: Lifetime)
    ensures start <= x <= end && life.Contains(x) ==>
              Active(days + [x], start, end, life) == Active(days, start, end, life) + [x]
    ensures !(start <= x <= end && life.Contains(x)) ==>
              Active(days + [x], start, end, life) == Active(days, start, end, life)
  {
    var window := Within(days, start, end);
    WithinSnoc(days, x, start, end);
    if start <= x <= end {
      WithinSnoc(window, x, life.startDate, life.endDate);
    }
  }

  lemma CollectSnoc(recon: UnpairedDailyBars, some: seq<Asset>, asset: Asset, start: Day, end: Day)
    requires forall a :: a in some ==> a in recon.finder
    requires asset in recon.finder
    ensures var e := recon.AssetMismatches(asset, start, end);
            recon.Collect(some + [asset], start, end) ==
              if |e.0| > 0 then recon.Collect(some, start, end)[asset := e] else recon.Collect(some, start, end)
  {
  }

  /**
   * One asset's mismatches, accumulated by an ascending pass over the
   * calendar that skips days outside the window or the asset's lifetime.
   */
  method AssetPass(calendar: seq<Day>, start: Day, end: Day, life: Lifetime, asset: Asset, a: Archive, b: Archive)
    returns (e: Entry)
    ensures e == Mismatches(Active(calendar, start, end, life), asset, a, b)
  {
    var days: seq<Day>, valuesA: seq<nat>, valuesB: seq<nat> := [], [], [];
    var j := 0;
    while j < |calendar|
      invariant 0 <= j <= |calendar|
      invariant (days, valuesA, valuesB) == Mismatches(Active(calendar[..j], start, end, life), asset, a, b)
    {
      var day := calendar[j];
      assert calendar[..j + 1] == calendar[..j] + [day];
      ActiveSnoc(calendar[..j], day, start, end, life);
      if start <= day <= end && life.Contains(day) {
        MismatchesSnoc(Active(calendar[..j], start, end, life), day, asset, a, b);
        var x, y := Get(a, asset, day), Get(b, asset, day);
        if x != y {
          days, valuesA, valuesB := days + [day], valuesA + [FieldValue(x, ReportField)], valuesB + [FieldValue(y, ReportField)];
        }
      }
      j := j + 1;
    }
    assert calendar[..|calendar|] == calendar;
    e := (days, valuesA, valuesB);
  }

  /** The report over all configured assets, one asset pass at a time, once every asset is known. */
  method CollectPass(recon: UnpairedDailyBars, start: Day, end: Day) returns (report: Report)
    requires forall a :: a in recon.assets ==> a in recon.finder
    ensures report == recon.Collect(recon.assets, start, end)
  {
    var assets, finder := recon.assets, recon.finder;
    report := map[];
    var i := 0;
    while i < |assets|
      invariant 0 <= i <= |assets|
      invariant report == recon.Collect(assets[..i], start, end)
    {
      var asset := assets[i];
      assert asset in assets;
      var e := AssetPass(recon.calendar, start, end, finder[asset], asset, recon.readerA, recon.readerB);
      CollectSnoc(recon, assets[..i], asset, start, end);
      assert assets[..i + 1] == assets[..i] + [asset];
      if |e.0| > 0 {
        report := report[asset := e];
      }
      i := i + 1;
    }
    assert assets[..i] == assets;
  }

  /**
   * `Unpaired(start, end)`, computed by a pass over the assets once the
   * window and every asset have been checked.
   */
  method ComputeUnpaired(recon: UnpairedDailyBars, start: Day, end: Day) returns (result: Result<Report, ConfigError>)
    ensures result == recon.Unpaired(start, end)
  {
    if start > end {
      return Err(InvalidRange(start, end));
    }
    var unknown := FirstUnknown(recon.assets, recon.finder);
    if unknown.Some? {
      return Err(UnknownAsset(unknown.value));
    }
    var report := CollectPass(recon, start, end);
    return Ok(report);
  }
}
