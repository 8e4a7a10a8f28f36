/**
 * The daily-bar reconciler `UnpairedDailyBars`: given a trading calendar, the
 * asset directory's lifetimes, two bar archives and the assets to compare,
 * `Unpaired(start, end)` reports every (asset, trading day) cell where the
 * two archives hold different rows, as the days and the two volumes.
 */
module DataChecks {
  import opened Wrappers
  import opened DailyBars

  /** One asset's mismatches: the days, and the values from archive A and archive B. */
  type Entry = (seq<Day>, seq<nat>, seq<nat>)

  /** The result of `Unpaired`: only assets with at least one mismatch have a key. */
  type Report = map<Asset, Entry>

  /** Caller misuse, raised before any row is read. */
  datatype ConfigError =
    | InvalidRange(start: Day, end: Day)
    | UnknownAsset(asset: Asset)

  /** The field whose two values are reported for a mismatched row, whichever fields differ. */
  const ReportField: Field := Volume

  ghost predicate StrictlyAscending(s: seq<int>)
  {
    forall i, j :: 0 <= i < j < |s| ==> s[i] < s[j]
  }

  /** The days of `days` inside the inclusive window `[lo, hi]`, in their original order. */
  function Within(days: seq<Day>, lo: Day, hi: Day): (r: seq<Day>)
    ensures |r| <= |days|
  {
    if days == [] then []
    else
      var last := days[|days| - 1];
      Within(days[..|days| - 1], lo, hi) + (if lo <= last <= hi then [last] else [])
  }

  /** The days of `days` inside both the query window and an asset's lifetime. */
  function Active(days: seq<Day>, start: Day, end: Day, life: Lifetime): seq<Day>
  {
    Within(Within(days, start, end), life.startDate, life.endDate)
  }

  /**
   * One asset's mismatches over `days`: every day on which the two archives'
   * rows differ, with the representative field's value from each archive.
   */
  function Mismatches(days: seq<Day>, asset: Asset, a: Archive, b: Archive): (r: Entry)
    ensures |r.0| == |r.1| && |r.1| == |r.2| && |r.0| <= |days|
  {
    if days == [] then ([], [], [])
    else
      var prev := Mismatches(days[..|days| - 1], asset, a, b);
      var day := days[|days| - 1];
      var x, y := Get(a, asset, day), Get(b, asset, day);
      if x == y then prev
      else (prev.0 + [day], prev.1 + [FieldValue(x, ReportField)], prev.2 + [FieldValue(y, ReportField)])
  }

  /** The first asset of `assets` that the directory cannot resolve, if any. */
  function FirstUnknown(assets: seq<Asset>, finder: AssetFinder): (r: Option<Asset>)
    ensures r.None? <==> forall a :: a in assets ==> a in finder
    ensures r.Some? ==> exists i :: 0 <= i < |assets| && assets[i] == r.value && r.value !in finder &&
                          forall k :: 0 <= k < i ==> assets[k] in finder
  {
    if assets == [] then None
    else if assets[0] !in finder then
      var first := assets[0];
      assert first in assets;
      Some(first)
    else
      var rest := FirstUnknown(assets[1..], finder);
      assert forall a :: a in assets ==> a == assets[0] || a in assets[1..];
      if rest.Some? then
        ghost var i :| 0 <= i < |assets[1..]| && assets[1..][i] == rest.value && rest.value !in finder &&
                       forall k :: 0 <= k < i ==> assets[1..][k] in finder;
        assert assets[i + 1] == rest.value;
        rest
      else rest
  }

  /**
   * The reconciler, holding what it is constructed with: the trading
   * calendar (ascending), the asset directory, the two archives and the
   * assets to compare. Construction reads nothing.
   */
  datatype UnpairedDailyBars = UnpairedDailyBars(
    calendar: seq<Day>,
    finder: AssetFinder,
    readerA: Archive,
    readerB: Archive,
    assets: seq<Asset>)
  {
    /** The calendar days in the query window that also fall inside the asset's lifetime. */
    function ActiveDays(asset: Asset, start: Day, end: Day): seq<Day>
      requires asset in finder
    {
      Active(calendar, start, end, finder[asset])
    }

    function AssetMismatches(asset: Asset, start: Day, end: Day): Entry
      requires asset in finder
    {
      Mismatches(ActiveDays(asset, start, end), asset, readerA, readerB)
    }

    /** The report gathered over `some` assets: one key per asset with at least one mismatch. */
    function Collect(some: seq<Asset>, start: Day, end: Day): Report
      requires forall a :: a in some ==> a in finder
    {
      map a | a in some && |AssetMismatches(a, start, end).0| > 0 :: AssetMismatches(a, start, end)
    }

    /**
     * The mismatch report for the inclusive window `[start, end]`, or the
     * configuration error the call raises.
     */
    function Unpaired(start: Day, end: Day): (r: Result<Report, ConfigError>)
      ensures start > end ==> r == Err(InvalidRange(start, end))
      ensures start <= end ==> (r.Err? <==> exists a :: a in assets && a !in finder)
      ensures start <= end && r.Err? ==> r.error.UnknownAsset? && r.error.asset in assets && r.error.asset !in finder
      ensures r.Ok? ==> forall a :: a in r.value ==> a in assets && a in finder
      ensures r.Ok? ==> forall a :: a in r.value ==> |r.value[a].0| > 0
    {
      if start > end then Err(InvalidRange(start, end))
      else
        match FirstUnknown(assets, finder)
        case Some(a) => Err(UnknownAsset(a))
        case None =>
          Ok(Collect(assets, start, end))
    }

    /** The same reconciler with the roles of the two archives exchanged. */
    function Swapped(): UnpairedDailyBars
    {
      UnpairedDailyBars(calendar, finder, readerB, readerA, assets)
    }
  }

  /** A day is kept exactly when it is one of `days` and lies inside the window. */
  lemma {:induction false} WithinMembers(days: seq<Day>, lo: Day, hi: Day)
    ensures forall d :: d in Within(days, lo, hi) <==> d in days && lo <= d <= hi
  {
    if days != [] {
      var init := days[..|days| - 1];
      WithinMembers(init, lo, hi);
      assert days == init + [days[|days| - 1]];
    }
  }

  /** A day is reported exactly when it is one of `days` and the two archives' rows for it differ. */
  lemma {:induction false} MismatchesMembers(days: seq<Day>, asset: Asset, a: Archive, b: Archive)
    ensures forall d :: d in Mismatches(days, asset, a, b).0 <==> d in days && Get(a, asset, d) != Get(b, asset, d)
  {
    if days != [] {
      var init := days[..|days| - 1];
      MismatchesMembers(init, asset, a, b);
      assert days == init + [days[|days| - 1]];
    }
  }

  /** Each reported pair is the volume of archive A's row and of archive B's row on that day. */
  lemma {:induction false} MismatchesVolumes(days: seq<Day>, asset: Asset, a: Archive, b: Archive, i: nat)
    requires i < |Mismatches(days, asset, a, b).0|
    ensures Mismatches(days, asset, a, b).1[i] == Get(a, asset, Mismatches(days, asset, a, b).0[i]).volume
    ensures Mismatches(days, asset, a, b).2[i] == Get(b, asset, Mismatches(days, asset, a, b).0[i]).volume
  {
    var prev := Mismatches(days[..|days| - 1], asset, a, b);
    if i < |prev.0| {
      MismatchesVolumes(days[..|days| - 1], asset, a, b, i);
    }
  }

  /** Extending the days by one: the window keeps the new day exactly when it lies inside. */
  lemma WithinSnoc(days: seq<Day>, x: Day, lo: Day, hi: Day)
    ensures lo <= x <= hi ==> Within(days + [x], lo, hi) == Within(days, lo, hi) + [x]
    ensures !(lo <= x <= hi) ==> Within(days + [x], lo, hi) == Within(days, lo, hi)
  {
    assert (days + [x])[..|days|] == days;
    assert Within(days, lo, hi) + [] == Within(days, lo, hi);
  }

  /** Extending the days by one: a new mismatch is appended exactly when the rows differ. */
  lemma MismatchesSnoc(days: seq<Day>, x: Day, asset: Asset, a: Archive, b: Archive)
    ensures var r := Mismatches(days, asset, a, b);
            var u, v := Get(a, asset, x), Get(b, asset, x);
            Mismatches(days + [x], asset, a, b) ==
              if u == v then r else (r.0 + [x], r.1 + [u.volume], r.2 + [v.volume])
  {
    assert (days + [x])[..|days|] == days;
  }

  /** Filtering distributes over concatenation, keeping the order. */
  lemma {:induction false} WithinAppend(s: seq<Day>, t: seq<Day>, lo: Day, hi: Day)
    ensures Within(s + t, lo, hi) == Within(s, lo, hi) + Within(t, lo, hi)
  {
    if t == [] {
      assert s + t == s;
    } else {
      var init := t[..|t| - 1];
      var x := t[|t| - 1];
      assert s + t == (s + init) + [x];
      assert t == init + [x];
      WithinAppend(s, init, lo, hi);
      WithinSnoc(s + init, x, lo, hi);
      WithinSnoc(init, x, lo, hi);
    }
  }

  /** Days that all lie inside the window are all kept. */
  lemma {:induction false} WithinAll(days: seq<Day>, lo: Day, hi: Day)
    requires forall d :: d in days ==> lo <= d <= hi
    ensures Within(days, lo, hi) == days
  {
    if days != [] {
      var init, last := days[..|days| - 1], days[|days| - 1];
      assert days == init + [last];
      assert last in days && forall d :: d in init ==> d in days;
      WithinAll(init, lo, hi);
      WithinSnoc(init, last, lo, hi);
    }
  }

  /** Days that all lie outside the window are all dropped. */
  lemma {:induction false} WithinNone(days: seq<Day>, lo: Day, hi: Day)
    requires forall d :: d in days ==> !(lo <= d <= hi)
    ensures Within(days, lo, hi) == []
  {
    if days != [] {
      var init, last := days[..|days| - 1], days[|days| - 1];
      assert days == init + [last];
      assert last in days && forall d :: d in init ==> d in days;
      WithinNone(init, lo, hi);
      WithinSnoc(init, last, lo, hi);
    }
  }
}
