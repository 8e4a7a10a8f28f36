/**
 * What `UnpairedDailyBars.Unpaired` promises beyond its own contract:
 * exactly the differing cells are reported, with their volumes, in calendar
 * order; swapping the archives swaps the values; an archive compared with
 * itself reports nothing; cells outside an asset's lifetime are never read.
 */
module DataChecksProperties {
  import opened DailyBars
  import opened DataChecks

  lemma AppendAscending(s: seq<int>, x: int)
    requires StrictlyAscending(s)
    requires forall d :: d in s ==> d < x
    ensures StrictlyAscending(s + [x])
  {
    forall i, j | 0 <= i < j < |s + [x]| ensures (s + [x])[i] < (s + [x])[j] {
      if j == |s| {
        assert s[i] in s;
      }
    }
  }

  lemma {:induction false} WithinAscending(days: seq<Day>, lo: Day, hi: Day)
    requires StrictlyAscending(days)
    ensures StrictlyAscending(Within(days, lo, hi))
  {
    if days != [] {
      var n := |days| - 1;
      var init := days[..n];
      assert StrictlyAscending(init);
      WithinAscending(init, lo, hi);
      WithinMembers(init, lo, hi);
      var w := Within(init, lo, hi);
      forall d | d in w ensures d < days[n] {
        var k :| 0 <= k < n && init[k] == d;
        assert days[k] == d;
      }
      if lo <= days[n] <= hi {
        AppendAscending(w, days[n]);
      }
    }
  }

  lemma {:induction false} MismatchesAscending(days: seq<Day>, asset: Asset, a: Archive, b: Archive)
    requires StrictlyAscending(days)
    ensures StrictlyAscending(Mismatches(days, asset, a, b).0)
  {
    if days != [] {
      var n := |days| - 1;
      var init := days[..n];
      assert StrictlyAscending(init);
      MismatchesAscending(init, asset, a, b);
      MismatchesMembers(init, asset, a, b);
      var m := Mismatches(init, asset, a, b).0;
      forall d | d in m ensures d < days[n] {
        var k :| 0 <= k < n && init[k] == d;
        assert days[k] == d;
      }
      if Get(a, asset, days[n]) != Get(b, asset, days[n]) {
        AppendAscending(m, days[n]);
      }
    }
  }

  /** Exchanging the archives reports the same days with each pair of values exchanged. */
  lemma {:induction false} MismatchesSwap(days: seq<Day>, asset: Asset, a: Archive, b: Archive)
    ensures var r := Mismatches(days, asset, a, b);
            Mismatches(days, asset, b, a) == (r.0, r.2, r.1)
  {
    if days != [] {
      MismatchesSwap(days[..|days| - 1], asset, a, b);
    }
  }

  lemma {:induction false} MismatchesSelf(days: seq<Day>, asset: Asset, a: Archive)
    ensures Mismatches(days, asset, a, a) == ([], [], [])
  {
    if days != [] {
      MismatchesSelf(days[..|days| - 1], asset, a);
    }
  }

  /** Mismatches over `days` depend only on the rows the archives hold for those days. */
  lemma {:induction false} MismatchesLocal(days: seq<Day>, asset: Asset, a: Archive, b: Archive, a': Archive, b': Archive)
    requires forall d :: d in days ==> Get(a, asset, d) == Get(a', asset, d) && Get(b, asset, d) == Get(b', asset, d)
    ensures Mismatches(days, asset, a, b) == Mismatches(days, asset, a', b')
  {
    if days != [] {
      var init := days[..|days| - 1];
      assert forall d :: d in init ==> d in days;
      MismatchesLocal(init, asset, a, b, a', b');
    }
  }

  /** The days compared for an asset: calendar days inside both the window and the lifetime. */
  lemma ActiveMembers(recon: UnpairedDailyBars, asset: Asset, start: Day, end: Day)
    requires asset in recon.finder
    ensures forall d :: d in recon.ActiveDays(asset, start, end) <==>
              d in recon.calendar && start <= d <= end && recon.finder[asset].Contains(d)
  {
    var life := recon.finder[asset];
    WithinMembers(recon.calendar, start, end);
    WithinMembers(Within(recon.calendar, start, end), life.startDate, life.endDate);
  }

  /**
   * A cell appears in the report exactly when its asset is compared, its day
   * is a calendar day inside both the query window and the asset's
   * lifetime, and the two archives' rows for it differ.
   */
  lemma UnpairedCells(recon: UnpairedDailyBars, start: Day, end: Day, asset: Asset, day: Day)
    requires recon.Unpaired(start, end).Ok?
    ensures var report := recon.Unpaired(start, end).value;
            (asset in report && day in report[asset].0) <==>
              && asset in recon.assets
              && asset in recon.finder
              && day in recon.calendar
              && start <= day <= end
              && recon.finder[asset].Contains(day)
              && Get(recon.readerA, asset, day) != Get(recon.readerB, asset, day)
  {
    var report := recon.Unpaired(start, end).value;
    if asset in recon.assets && asset in recon.finder {
      ActiveMembers(recon, asset, start, end);
      var e := recon.AssetMismatches(asset, start, end);
      MismatchesMembers(recon.ActiveDays(asset, start, end), asset, recon.readerA, recon.readerB);
      if day in e.0 {
        assert asset in report;
      }
    }
  }

  /**
   * An asset that is compared has no key in the report exactly when the
   * archives agree on every day it is compared on: a fully matching asset
   * contributes nothing, not an entry of empty sequences.
   */
  lemma UnpairedOmitsMatchingAssets(recon: UnpairedDailyBars, start: Day, end: Day, asset: Asset)
    requires recon.Unpaired(start, end).Ok?
    requires asset in recon.assets
    ensures asset in recon.finder
    ensures asset !in recon.Unpaired(start, end).value <==>
              forall d :: d in recon.calendar && start <= d <= end && recon.finder[asset].Contains(d) ==>
                Get(recon.readerA, asset, d) == Get(recon.readerB, asset, d)
  {
    var report := recon.Unpaired(start, end).value;
    var e := recon.AssetMismatches(asset, start, end);
    ActiveMembers(recon, asset, start, end);
    MismatchesMembers(recon.ActiveDays(asset, start, end), asset, recon.readerA, recon.readerB);
    if asset !in report {
      assert |e.0| == 0;
      forall d | d in recon.calendar && start <= d <= end && recon.finder[asset].Contains(d)
        ensures Get(recon.readerA, asset, d) == Get(recon.readerB, asset, d)
      {
        assert d !in e.0;
      }
    } else {
      var d := report[asset].0[0];
      assert d in e.0;
    }
  }

  /** The two reported values of every mismatch are the volumes of the two rows. */
  lemma UnpairedReportsVolumes(recon: UnpairedDailyBars, start: Day, end: Day, asset: Asset)
    requires recon.Unpaired(start, end).Ok?
    requires asset in recon.Unpaired(start, end).value
    ensures var e := recon.Unpaired(start, end).value[asset];
            && |e.0| == |e.1| == |e.2|
            && forall i :: 0 <= i < |e.0| ==>
                 && e.1[i] == Get(recon.readerA, asset, e.0[i]).volume
                 && e.2[i] == Get(recon.readerB, asset, e.0[i]).volume
  {
    var e := recon.Unpaired(start, end).value[asset];
    forall i | 0 <= i < |e.0|
      ensures e.1[i] == Get(recon.readerA, asset, e.0[i]).volume && e.2[i] == Get(recon.readerB, asset, e.0[i]).volume
    {
      MismatchesVolumes(recon.ActiveDays(asset, start, end), asset, recon.readerA, recon.readerB, i);
    }
  }

  /** Over an ascending calendar, each asset's mismatch days are strictly ascending. */
  lemma UnpairedDaysAscending(recon: UnpairedDailyBars, start: Day, end: Day, asset: Asset)
    requires StrictlyAscending(recon.calendar)
    requires recon.Unpaired(start, end).Ok?
    requires asset in recon.Unpaired(start, end).value
    ensures StrictlyAscending(recon.Unpaired(start, end).value[asset].0)
  {
    var life := recon.finder[asset];
    WithinAscending(recon.calendar, start, end);
    WithinAscending(Within(recon.calendar, start, end), life.startDate, life.endDate);
    MismatchesAscending(recon.ActiveDays(asset, start, end), asset, recon.readerA, recon.readerB);
  }

  /**
   * Exchanging the two archives fails in the same way or reports the same
   * assets and days, with the pair of values in each entry exchanged.
   */
  lemma UnpairedSwap(recon: UnpairedDailyBars, start: Day, end: Day)
    ensures var r, s := recon.Unpaired(start, end), recon.Swapped().Unpaired(start, end);
            && (r.Err? ==> s == r)
            && (r.Ok? ==>
                  && s.Ok?
                  && s.value.Keys == r.value.Keys
                  && forall a :: a in r.value ==> s.value[a] == (r.value[a].0, r.value[a].2, r.value[a].1))
  {
    var swapped := recon.Swapped();
    forall a | a in recon.finder
      ensures swapped.AssetMismatches(a, start, end) ==
                var e := recon.AssetMismatches(a, start, end); (e.0, e.2, e.1)
    {
      MismatchesSwap(recon.ActiveDays(a, start, end), a, recon.readerA, recon.readerB);
    }
  }

  /** An archive compared with itself has no mismatches, over any window and any assets. */
  lemma UnpairedSelf(recon: UnpairedDailyBars, start: Day, end: Day)
    requires recon.readerA == recon.readerB
    requires recon.Unpaired(start, end).Ok?
    ensures recon.Unpaired(start, end).value == map[]
  {
    forall asset | asset in recon.assets && asset in recon.finder
      ensures recon.AssetMismatches(asset, start, end) == ([], [], [])
    {
      MismatchesSelf(recon.ActiveDays(asset, start, end), asset, recon.readerA);
    }
    assert recon.Unpaired(start, end).value.Keys == {};
  }

  /** One asset's mismatches depend only on its cells on its active days. */
  lemma AssetMismatchesLocal(recon: UnpairedDailyBars, a': Archive, b': Archive, asset: Asset, start: Day, end: Day)
    requires asset in recon.finder
    requires forall d :: d in recon.calendar && start <= d <= end && recon.finder[asset].Contains(d) ==>
                 Get(recon.readerA, asset, d) == Get(a', asset, d) && Get(recon.readerB, asset, d) == Get(b', asset, d)
    ensures recon.AssetMismatches(asset, start, end) ==
              UnpairedDailyBars(recon.calendar, recon.finder, a', b', recon.assets).AssetMismatches(asset, start, end)
  {
    var days := recon.ActiveDays(asset, start, end);
    ActiveMembers(recon, asset, start, end);
    MismatchesLocal(days, asset, recon.readerA, recon.readerB, a', b');
  }

  /** Two reconcilers over the same directory whose assets have the same mismatches collect the same report. */
  lemma CollectCongruent(recon: UnpairedDailyBars, other: UnpairedDailyBars, some: seq<Asset>, start: Day, end: Day)
    requires recon.finder == other.finder && forall a :: a in some ==> a in recon.finder
    requires forall a :: a in some ==> recon.AssetMismatches(a, start, end) == other.AssetMismatches(a, start, end)
    ensures recon.Collect(some, start, end) == other.Collect(some, start, end)
  {
  }

  /**
   * Rows outside an asset's lifetime, outside the window or off the
   * calendar are never compared: two pairs of archives that agree on every
   * compared cell yield the same result.
   */
  lemma UnpairedIgnoresUncomparedCells(recon: UnpairedDailyBars, a': Archive, b': Archive, start: Day, end: Day)
    requires forall asset, d ::
               asset in recon.assets && asset in recon.finder && d in recon.calendar &&
               start <= d <= end && recon.finder[asset].Contains(d) ==>
                 Get(recon.readerA, asset, d) == Get(a', asset, d) && Get(recon.readerB, asset, d) == Get(b', asset, d)
    ensures recon.Unpaired(start, end) ==
              UnpairedDailyBars(recon.calendar, recon.finder, a', b', recon.assets).Unpaired(start, end)
  {
    var other := UnpairedDailyBars(recon.calendar, recon.finder, a', b', recon.assets);
    if start <= end && FirstUnknown(recon.assets, recon.finder).None? {
      forall asset | asset in recon.assets
        ensures recon.AssetMismatches(asset, start, end) == other.AssetMismatches(asset, start, end)
      {
        AssetMismatchesLocal(recon, a', b', asset, start, end);
      }
      CollectCongruent(recon, other, recon.assets, start, end);
    }
  }
}
