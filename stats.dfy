/**
 * `calculateStats`: the summary shown on the home and statistics screens,
 * recomputed from the whole history whenever it changes. Totals are
 * `reduce` folds from 0; the average pace is the plain mean of the
 * per-activity paces, not weighted by distance. Values are those before
 * `toFixed` turns them into text.
 */
module Stats {
  import opened Records
  import History

  datatype Summary = Summary(totalKm: real, totalActivities: nat, avgPace: real, totalCalories: real)

  /** The sum of `f` over the history, added up from the first activity on. */
  function Total(f: Activity -> real, h: seq<Activity>): (r: real)
    decreases |h|
  {
    if h == [] then 0.0 else Total(f, h[..|h| - 1]) + f(h[|h| - 1])
  }

  function Km(a: Activity): real { a.distance }
  function Pace(a: Activity): real { a.avgPace }
  function Calories(a: Activity): real { a.calories }

  /** The summary of a history: all zero when it is empty. */
  function CalculateStats(h: seq<Activity>): (r: Summary)
    ensures h == [] ==> r == Summary(0.0, 0, 0.0, 0.0)
    ensures r.totalActivities == |h|
    ensures r.totalKm == Total(Km, h) && r.totalCalories == Total(Calories, h)
    ensures r.avgPace * |h| as real == Total(Pace, h)
  {
    if |h| == 0 then Summary(0.0, 0, 0.0, 0.0)
    else Summary(Total(Km, h), |h|, Total(Pace, h) / |h| as real, Total(Calories, h))
  }

  /** A total over two histories is the sum of their totals. */
  lemma {:induction false} TotalConcat(f: Activity -> real, h1: seq<Activity>, h2: seq<Activity>)
    ensures Total(f, h1 + h2) == Total(f, h1) + Total(f, h2)
    decreases |h2|
  {
    if h2 == [] {
      assert h1 + h2 == h1;
    } else {
      assert (h1 + h2)[..|h1 + h2| - 1] == h1 + h2[..|h2| - 1];
      TotalConcat(f, h1, h2[..|h2| - 1]);
    }
  }

  /** Taking one activity out of a history takes its value out of the total. */
  lemma TotalRemoveAt(f: Activity -> real, h: seq<Activity>, j: nat)
    requires j < |h|
    ensures Total(f, h) == Total(f, h[..j] + h[j + 1..]) + f(h[j])
  {
    var left, x, right := h[..j], h[j], h[j + 1..];
    assert h == (left + [x]) + right;
    TotalConcat(f, left + [x], right);
    assert (left + [x])[..|left|] == left;
    assert Total(f, left + [x]) == Total(f, left) + f(x);
    TotalConcat(f, left, right);
  }

  lemma MultisetRemoveAt(h: seq<Activity>, j: nat)
    requires j < |h|
    ensures multiset(h[..j] + h[j + 1..]) == multiset(h) - multiset{h[j]}
  {
    assert h == h[..j] + [h[j]] + h[j + 1..];
  }

  /** A total does not depend on the order of the history. */
  lemma {:induction false} TotalPermutation(f: Activity -> real, h1: seq<Activity>, h2: seq<Activity>)
    requires multiset(h1) == multiset(h2)
    ensures Total(f, h1) == Total(f, h2)
    decreases |h1|
  {
    if h1 != [] {
      var init, last := h1[..|h1| - 1], h1[|h1| - 1];
      assert h1 == init + [last];
      assert last in multiset(h2);
      var j :| 0 <= j < |h2| && h2[j] == last;
      var rest := h2[..j] + h2[j + 1..];
      MultisetRemoveAt(h2, j);
      assert multiset(init) == multiset(h1) - multiset{last} == multiset(h2) - multiset{last};
      TotalPermutation(f, init, rest);
      TotalRemoveAt(f, h2, j);
    }
  }

  /** Saving an activity adds its distance and calories to the totals and moves the mean pace accordingly. */
  lemma StatsAfterAppend(h: seq<Activity>, a: Activity)
    ensures var before, after := CalculateStats(h), CalculateStats(h + [a]);
      && after.totalActivities == before.totalActivities + 1
      && after.totalKm == before.totalKm + a.distance
      && after.totalCalories == before.totalCalories + a.calories
      && after.avgPace * (|h| + 1) as real == before.avgPace * |h| as real + a.avgPace
  {
    assert (h + [a])[..|h + [a]| - 1] == h;
  }

  /** Deleting an id takes exactly the removed activities' distance and calories off the totals. */
  lemma StatsAfterDelete(h: seq<Activity>, id: int)
    ensures var before, after, gone := CalculateStats(h), CalculateStats(History.Delete(h, id)), History.Matching(h, id);
      && after.totalActivities == before.totalActivities - |gone|
      && after.totalKm == before.totalKm - Total(Km, gone)
      && after.totalCalories == before.totalCalories - Total(Calories, gone)
  {
    var kept, gone := History.Delete(h, id), History.Matching(h, id);
    History.DeletePartition(h, id);
    TotalPermutation(Km, kept + gone, h);
    TotalConcat(Km, kept, gone);
    TotalPermutation(Calories, kept + gone, h);
    TotalConcat(Calories, kept, gone);
  }

  /** A sum of n values in [lo, hi] lies in [n * lo, n * hi]. */
  lemma {:induction false} TotalBounds(f: Activity -> real, h: seq<Activity>, lo: real, hi: real)
    requires forall i :: 0 <= i < |h| ==> lo <= f(h[i]) <= hi
    ensures lo * |h| as real <= Total(f, h) <= hi * |h| as real
    decreases |h|
  {
    if h != [] {
      TotalBounds(f, h[..|h| - 1], lo, hi);
    }
  }

  /** The mean pace lies between the smallest and the largest pace of the history. */
  lemma AvgPaceBounds(h: seq<Activity>, lo: real, hi: real)
    requires h != []
    requires forall i :: 0 <= i < |h| ==> lo <= h[i].avgPace <= hi
    ensures lo <= CalculateStats(h).avgPace <= hi
  {
    TotalBounds(Pace, h, lo, hi);
    var n := |h| as real;
    var r := CalculateStats(h);
    assert r.avgPace * n >= lo * n;
    assert r.avgPace * n <= hi * n;
  }

  /** Two activities at 5 and 10 km/h average 7.5 km/h whatever their distances: the mean is unweighted. */
  lemma UnweightedMeanExample(a: Activity, b: Activity)
    requires a.avgPace == 5.0 && b.avgPace == 10.0
    ensures CalculateStats([a, b]).avgPace == 7.5
  {
    assert [a, b][..1] == [a];
    assert [a][..0] == [];
    assert Total(Pace, [a]) == 5.0;
    assert Total(Pace, [a, b]) == 15.0;
  }
}
