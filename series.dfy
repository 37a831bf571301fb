/** The series builder `prepare_series` (main.py lines 46-54): one city's
    records, indexed by date, reindexed to every day from the first to the
    last observed one, and gap days filled by time-weighted interpolation. */
module Series {
  import opened Wrappers
  import opened Errors
  import opened Seqs
  import opened Normalizer

  /** A complete daily series: `values[i]` is the temperature of day `start + i`. */
  datatype Daily = Daily(start: int, values: seq<real>)

  /** One observed (day, temperature) pair of the selected city. */
  datatype Obs = Obs(day: int, temperature: real)

  function OfCity(city: string): Record -> Option<Obs>
  {
    (rec: Record) => if rec.city == city then Some(Obs(rec.day, rec.temperature)) else None
  }

  /** Line 47: the date and temperature of every record of `city`, in order. */
  function Observations(recs: seq<Record>, city: string): seq<Obs>
  {
    FilterMap(OfCity(city), recs)
  }

  /** Two records of `city` carry the same date. */
  predicate HasDuplicateDay(recs: seq<Record>, city: string)
  {
    exists i, j :: 0 <= i < j < |recs| && SameDay(recs, city, i, j)
  }

  /** Records `i` and `j` are both of `city` and carry the same date. */
  predicate SameDay(recs: seq<Record>, city: string, i: int, j: int)
    requires 0 <= i < |recs| && 0 <= j < |recs|
  {
    recs[i].city == city && recs[j].city == city && recs[i].day == recs[j].day
  }

  /** The earliest observed day. */
  function FirstDay(obs: seq<Obs>): (d: int)
    requires obs != []
    ensures exists o :: o in obs && o.day == d
    ensures forall o :: o in obs ==> d <= o.day
  {
    if |obs| == 1 then obs[0].day
    else
      var rest := FirstDay(obs[1..]);
      assert forall o :: o in obs ==> o == obs[0] || o in obs[1..];
      if obs[0].day <= rest then obs[0].day else rest
  }

  /** The latest observed day. */
  function LastDay(obs: seq<Obs>): (d: int)
    requires obs != []
    ensures exists o :: o in obs && o.day == d
    ensures forall o :: o in obs ==> o.day <= d
  {
    if |obs| == 1 then obs[0].day
    else
      var rest := LastDay(obs[1..]);
      assert forall o :: o in obs ==> o == obs[0] || o in obs[1..];
      if rest <= obs[0].day then obs[0].day else rest
  }

  /** The temperature observed on day `d`, if any (line 50, `set_index`). */
  function ValueOn(obs: seq<Obs>, d: int): (r: Option<real>)
    ensures r.Some? ==> Obs(d, r.value) in obs
    ensures r.None? ==> forall o :: o in obs ==> o.day != d
  {
    if obs == [] then None
    else if obs[|obs| - 1].day == d then Some(obs[|obs| - 1].temperature)
    else
      assert forall o :: o in obs ==> o == obs[|obs| - 1] || o in obs[..|obs| - 1];
      ValueOn(obs[..|obs| - 1], d)
  }

  /** Lines 51-52 (`sort_index().asfreq('D')`): one slot per day from the
      first to the last observed day, in ascending order, unset where
      nothing was observed. */
  function Reindex(obs: seq<Obs>): (grid: seq<Option<real>>)
    requires obs != []
    ensures |grid| == LastDay(obs) - FirstDay(obs) + 1
    ensures Anchored(grid)
  {
    var lo, hi := FirstDay(obs), LastDay(obs);
    EndsObserved(obs);
    seq(hi - lo + 1, i => ValueOn(obs, lo + i))
  }

  lemma EndsObserved(obs: seq<Obs>)
    requires obs != []
    ensures ValueOn(obs, FirstDay(obs)).Some? && ValueOn(obs, LastDay(obs)).Some?
  {
    var lo, hi := FirstDay(obs), LastDay(obs);
    var first :| first in obs && first.day == lo;
    var last :| last in obs && last.day == hi;
  }

  /** The first and the last slot are set. */
  predicate Anchored(grid: seq<Option<real>>)
  {
    |grid| > 0 && grid[0].Some? && grid[|grid| - 1].Some?
  }

  /** The nearest set slot at or before `i`. */
  function PrevKnown(grid: seq<Option<real>>, i: nat): (j: nat)
    requires i < |grid| && grid[0].Some?
    ensures j <= i && grid[j].Some?
    ensures forall k :: j < k <= i ==> grid[k].None?
  {
    if grid[i].Some? then i else PrevKnown(grid, i - 1)
  }

  /** The nearest set slot at or after `i`. */
  function NextKnown(grid: seq<Option<real>>, i: nat): (j: nat)
    requires i < |grid| && grid[|grid| - 1].Some?
    ensures i <= j < |grid| && grid[j].Some?
    ensures forall k :: i <= k < j ==> grid[k].None?
    decreases |grid| - i
  {
    if grid[i].Some? then i else NextKnown(grid, i + 1)
  }

  /** The value on day `d` of the straight line through (a, va) and (b, vb). */
  function Lerp(a: int, va: real, b: int, vb: real, d: int): real
    requires a < b
  {
    va + (vb - va) * (d - a) as real / (b - a) as real
  }

  /** Line 53 (`interpolate('time')`): every unset slot gets the value of the
      line through its nearest set neighbours, weighted by elapsed days. */
  function Interpolate(grid: seq<Option<real>>): (r: seq<real>)
    requires Anchored(grid)
    ensures |r| == |grid|
  {
    seq(|grid|, i requires 0 <= i < |grid| => Fill(grid, i))
  }

  /** The value of slot `i` after interpolation. */
  function Fill(grid: seq<Option<real>>, i: int): real
    requires Anchored(grid) && 0 <= i < |grid|
  {
    if grid[i].Some? then grid[i].value
    else
      var a, b := PrevKnown(grid, i), NextKnown(grid, i);
      Lerp(a, grid[a].value, b, grid[b].value, i)
  }

  /** Interpolation keeps every set slot. */
  lemma InterpolateKeeps(grid: seq<Option<real>>, i: int)
    requires Anchored(grid) && 0 <= i < |grid| && grid[i].Some?
    ensures Interpolate(grid)[i] == grid[i].value
  {
  }

  lemma ScaleBetween(x: real, w: real)
    requires 0.0 <= x && 0.0 <= w <= 1.0
    ensures 0.0 <= x * w <= x
  {
    assert x * (1.0 - w) >= 0.0;
  }

  /** The weight of day `d` on the way from `a` to `b`. */
  lemma WeightBetween(x: real, y: real) returns (w: real)
    requires 0.0 <= x <= y && 0.0 < y
    ensures w == x / y && 0.0 <= w <= 1.0
  {
    w := x / y;
    assert w * y == x;
  }

  lemma MulDiv(p: real, x: real, y: real)
    requires y != 0.0
    ensures p * x / y == p * (x / y)
  {
  }

  /** A point on the line between two values lies between them. */
  lemma LerpBetween(a: int, va: real, b: int, vb: real, d: int)
    requires a <= d <= b && a < b
    ensures va <= vb ==> va <= Lerp(a, va, b, vb, d) <= vb
    ensures vb <= va ==> vb <= Lerp(a, va, b, vb, d) <= va
  {
    var w := WeightBetween((d - a) as real, (b - a) as real);
    MulDiv(vb - va, (d - a) as real, (b - a) as real);
    assert Lerp(a, va, b, vb, d) == va + (vb - va) * w;
    if va <= vb {
      ScaleBetween(vb - va, w);
    } else {
      ScaleBetween(va - vb, w);
      assert (vb - va) * w == -((va - vb) * w);
    }
  }

  /** A gap slot between set neighbours `a` and `b`, with nothing set in
      between, holds their interpolation, which lies between their values. */
  lemma InterpolateGap(grid: seq<Option<real>>, a: int, va: real, i: int, b: int, vb: real)
    requires Anchored(grid)
    requires 0 <= a < i < b < |grid| && grid[a] == Some(va) && grid[b] == Some(vb)
    requires forall k :: a < k < b ==> grid[k].None?
    ensures Interpolate(grid)[i] == Lerp(a, va, b, vb, i)
    ensures va <= vb ==> va <= Interpolate(grid)[i] <= vb
    ensures vb <= va ==> vb <= Interpolate(grid)[i] <= va
  {
    var p, n := PrevKnown(grid, i), NextKnown(grid, i);
    assert p == a;
    assert n == b;
    LerpBetween(a, va, b, vb, i);
  }

  /** Every unset slot has set neighbours on both sides. */
  lemma GapHasNeighbours(grid: seq<Option<real>>, i: nat)
    requires Anchored(grid) && i < |grid| && grid[i].None?
    ensures exists a, b :: (0 <= a < i < b < |grid| && grid[a].Some? && grid[b].Some?
      && (forall k :: a < k < b ==> grid[k].None?))
  {
    var a, b := PrevKnown(grid, i), NextKnown(grid, i);
    assert forall k :: a < k < b ==> grid[k].None? by {
      forall k | a < k < b ensures grid[k].None? {
        if k <= i { } else { }
      }
    }
  }

  /** `prepare_series(df, city)`: no record of `city` fails; two records of
      `city` on one date fail, as `asfreq` refuses a duplicate index;
      otherwise the gap-filled daily series. */
  function PrepareSeries(recs: seq<Record>, city: string): (r: Result<Daily, Error>)
    ensures r.Success? ==> |r.value.values| > 0
  {
    var obs := Observations(recs, city);
    if obs == [] then Failure(NoData(city))
    else if HasDuplicateDay(recs, city) then Failure(DuplicateDates(city))
    else Success(Daily(FirstDay(obs), Interpolate(Reindex(obs))))
  }

  lemma ObservationOf(recs: seq<Record>, city: string, o: Obs)
    ensures o in Observations(recs, city) <==>
      exists i :: 0 <= i < |recs| && recs[i].city == city && o == Obs(recs[i].day, recs[i].temperature)
  {
    FilterMapMember(OfCity(city), recs, o);
  }

  /** Without duplicates, the slot of an observed day holds that day's record. */
  lemma ValueOnRecord(recs: seq<Record>, city: string, i: nat)
    requires !HasDuplicateDay(recs, city) && i < |recs| && recs[i].city == city
    ensures ValueOn(Observations(recs, city), recs[i].day) == Some(recs[i].temperature)
  {
    var obs := Observations(recs, city);
    ObservationOf(recs, city, Obs(recs[i].day, recs[i].temperature));
    var v := ValueOn(obs, recs[i].day);
    ObservationOf(recs, city, Obs(recs[i].day, v.value));
    var j :| 0 <= j < |recs| && recs[j].city == city && Obs(recs[i].day, v.value) == Obs(recs[j].day, recs[j].temperature);
    if j < i {
      assert SameDay(recs, city, j, i);
    } else if i < j {
      assert SameDay(recs, city, i, j);
    }
  }

  /** The slot of a day is set exactly when some record of the city has that day. */
  lemma SlotSetIffObserved(recs: seq<Record>, city: string, d: int)
    ensures ValueOn(Observations(recs, city), d).Some? <==>
      exists i :: 0 <= i < |recs| && recs[i].city == city && recs[i].day == d
  {
    var obs := Observations(recs, city);
    var v := ValueOn(obs, d);
    if v.Some? {
      ObservationOf(recs, city, Obs(d, v.value));
    }
    if exists i :: 0 <= i < |recs| && recs[i].city == city && recs[i].day == d {
      var i :| 0 <= i < |recs| && recs[i].city == city && recs[i].day == d;
      ObservationOf(recs, city, Obs(d, recs[i].temperature));
    }
  }

  /** `prepare_series` fails for want of data exactly when no record names the
      city, and for a duplicate date exactly when the city has records and
      two of them share a date; otherwise it succeeds. */
  lemma SeriesOutcome(recs: seq<Record>, city: string)
    ensures PrepareSeries(recs, city) == Failure(NoData(city)) <==>
      forall i :: 0 <= i < |recs| ==> recs[i].city != city
    ensures PrepareSeries(recs, city) == Failure(DuplicateDates(city)) <==>
      (exists i :: 0 <= i < |recs| && recs[i].city == city) && HasDuplicateDay(recs, city)
  {
    var obs := Observations(recs, city);
    if exists i :: 0 <= i < |recs| && recs[i].city == city {
      var i :| 0 <= i < |recs| && recs[i].city == city;
      ObservationOf(recs, city, Obs(recs[i].day, recs[i].temperature));
    } else if obs != [] {
      ObservationOf(recs, city, obs[0]);
    }
  }

  /** The series runs from the earliest to the latest observed day of the
      city: both ends are observed and every record lies within. */
  lemma SeriesSpan(recs: seq<Record>, city: string, s: Daily)
    requires PrepareSeries(recs, city) == Success(s)
    ensures exists i :: 0 <= i < |recs| && recs[i].city == city && recs[i].day == s.start
    ensures exists i :: 0 <= i < |recs| && recs[i].city == city && recs[i].day == s.start + |s.values| - 1
    ensures forall i :: 0 <= i < |recs| && recs[i].city == city ==> s.start <= recs[i].day < s.start + |s.values|
  {
    var obs := Observations(recs, city);
    var lo, hi := FirstDay(obs), LastDay(obs);
    assert s.start == lo && s.start + |s.values| - 1 == hi;
    SlotSetIffObserved(recs, city, lo);
    SlotSetIffObserved(recs, city, hi);
    forall i | 0 <= i < |recs| && recs[i].city == city
      ensures lo <= recs[i].day <= hi
    {
      ObservationOf(recs, city, Obs(recs[i].day, recs[i].temperature));
    }
  }

  /** Every observed day keeps its observed temperature. */
  lemma SeriesKeepsObserved(recs: seq<Record>, city: string, s: Daily, i: nat)
    requires PrepareSeries(recs, city) == Success(s)
    requires i < |recs| && recs[i].city == city
    ensures s.start <= recs[i].day < s.start + |s.values|
    ensures s.values[recs[i].day - s.start] == recs[i].temperature
  {
    SeriesSpan(recs, city, s);
    ValueOnRecord(recs, city, i);
    var grid := Reindex(Observations(recs, city));
    assert grid[recs[i].day - s.start] == Some(recs[i].temperature);
    InterpolateKeeps(grid, recs[i].day - s.start);
  }

  /** The series of a successful build, unfolded once. */
  lemma SeriesIsGrid(recs: seq<Record>, city: string, s: Daily)
    requires PrepareSeries(recs, city) == Success(s)
    ensures Observations(recs, city) != [] && !HasDuplicateDay(recs, city)
    ensures s.start == FirstDay(Observations(recs, city))
    ensures s.values == Interpolate(Reindex(Observations(recs, city)))
  {
  }

  lemma GridAt(obs: seq<Obs>, k: nat)
    requires obs != [] && k < |Reindex(obs)|
    ensures Reindex(obs)[k] == ValueOn(obs, FirstDay(obs) + k)
  {
  }

  /** Interpolation depends on elapsed days only, not on where they are counted from. */
  lemma LerpShift(a: int, va: real, b: int, vb: real, d: int, c: int)
    requires a < b
    ensures Lerp(a - c, va, b - c, vb, d - c) == Lerp(a, va, b, vb, d)
  {
  }

  /** A slot of the grid is set exactly when the city has a record on its day. */
  lemma GridSlot(recs: seq<Record>, city: string, start: int, grid: seq<Option<real>>, k: nat)
    requires Observations(recs, city) != []
    requires start == FirstDay(Observations(recs, city)) && grid == Reindex(Observations(recs, city))
    requires k < |grid|
    ensures grid[k].Some? <==> exists i :: 0 <= i < |recs| && recs[i].city == city && recs[i].day == start + k
  {
    SlotSetIffObserved(recs, city, start + k);
  }

  /** The slot of an observed day of a built series holds its record. */
  lemma GridHoldsRecord(recs: seq<Record>, city: string, s: Daily, i: nat)
    requires PrepareSeries(recs, city) == Success(s)
    requires i < |recs| && recs[i].city == city
    ensures 0 <= recs[i].day - s.start < |Reindex(Observations(recs, city))|
    ensures Reindex(Observations(recs, city))[recs[i].day - s.start] == Some(recs[i].temperature)
  {
    SeriesSpan(recs, city, s);
    ValueOnRecord(recs, city, i);
    GridAt(Observations(recs, city), recs[i].day - s.start);
  }

  /** Days with no record of the city have unset slots. */
  lemma GridGapUnset(recs: seq<Record>, city: string, s: Daily, a: nat, b: nat)
    requires PrepareSeries(recs, city) == Success(s)
    requires b < |Reindex(Observations(recs, city))|
    requires forall k :: 0 <= k < |recs| && recs[k].city == city ==> !(s.start + a < recs[k].day < s.start + b)
    ensures forall k :: a < k < b ==> Reindex(Observations(recs, city))[k].None?
  {
    var grid := Reindex(Observations(recs, city));
    forall k | a < k < b
      ensures grid[k].None?
    {
      GridSlot(recs, city, s.start, grid, k);
    }
  }

  /** The gap day `d` of a series starting on `start`, between set days `da`
      and `db`, read through the series values. */
  lemma FilledDay(values: seq<real>, grid: seq<Option<real>>, start: int, da: int, va: real, d: int, db: int, vb: real)
    requires Anchored(grid) && values == Interpolate(grid)
    requires start <= da < d < db < start + |grid|
    requires grid[da - start] == Some(va) && grid[db - start] == Some(vb)
    requires forall k :: da - start < k < db - start ==> grid[k].None?
    ensures values[d - start] == Lerp(da, va, db, vb, d)
    ensures va <= vb ==> va <= values[d - start] <= vb
    ensures vb <= va ==> vb <= values[d - start] <= va
  {
    InterpolateGap(grid, da - start, va, d - start, db - start, vb);
    LerpShift(da, va, db, vb, d, start);
    LerpBetween(da, va, db, vb, d);
  }

  /** A day strictly between two observed days `a` and `b` of the city, with
      no observation in between, gets the time-weighted interpolation of the
      two, which lies between their temperatures. */
  lemma SeriesFillsGap(recs: seq<Record>, city: string, s: Daily, ia: nat, ib: nat, d: int)
    requires PrepareSeries(recs, city) == Success(s)
    requires ia < |recs| && ib < |recs| && recs[ia].city == city && recs[ib].city == city
    requires recs[ia].day < d < recs[ib].day
    requires forall k :: 0 <= k < |recs| && recs[k].city == city ==> !(recs[ia].day < recs[k].day < recs[ib].day)
    ensures s.start < d < s.start + |s.values| - 1
    ensures s.values[d - s.start] ==
      Lerp(recs[ia].day, recs[ia].temperature, recs[ib].day, recs[ib].temperature, d)
    ensures recs[ia].temperature <= recs[ib].temperature ==>
      recs[ia].temperature <= s.values[d - s.start] <= recs[ib].temperature
    ensures recs[ib].temperature <= recs[ia].temperature ==>
      recs[ib].temperature <= s.values[d - s.start] <= recs[ia].temperature
  {
    SeriesIsGrid(recs, city, s);
    var grid := Reindex(Observations(recs, city));
    GridHoldsRecord(recs, city, s, ia);
    GridHoldsRecord(recs, city, s, ib);
    GridGapUnset(recs, city, s, recs[ia].day - s.start, recs[ib].day - s.start);
    FilledDay(s.values, grid, s.start, recs[ia].day, recs[ia].temperature, d, recs[ib].day, recs[ib].temperature);
  }

  /** No day of the series is left unset: a day is observed, or it lies
      strictly between two observed days with no observation in between. */
  lemma SeriesDayCovered(recs: seq<Record>, city: string, s: Daily, d: int)
    requires PrepareSeries(recs, city) == Success(s)
    requires s.start <= d < s.start + |s.values|
    ensures || (exists i :: 0 <= i < |recs| && recs[i].city == city && recs[i].day == d)
            || (exists ia, ib :: 0 <= ia < |recs| && 0 <= ib < |recs|
                 && recs[ia].city == city && recs[ib].city == city
                 && recs[ia].day < d < recs[ib].day
                 && forall k :: 0 <= k < |recs| && recs[k].city == city ==> !(recs[ia].day < recs[k].day < recs[ib].day))
  {
    SeriesIsGrid(recs, city, s);
    var grid := Reindex(Observations(recs, city));
    var i := d - s.start;
    GridSlot(recs, city, s.start, grid, i);
    if grid[i].None? {
      GapHasNeighbours(grid, i);
      var a, b :| 0 <= a < i < b < |grid| && grid[a].Some? && grid[b].Some?
        && (forall k :: a < k < b ==> grid[k].None?);
      GridSlot(recs, city, s.start, grid, a);
      GridSlot(recs, city, s.start, grid, b);
      var ia :| 0 <= ia < |recs| && recs[ia].city == city && recs[ia].day == s.start + a;
      var ib :| 0 <= ib < |recs| && recs[ib].city == city && recs[ib].day == s.start + b;
      forall k | 0 <= k < |recs| && recs[k].city == city
        ensures !(recs[ia].day < recs[k].day < recs[ib].day)
      {
        if recs[ia].day < recs[k].day < recs[ib].day {
          GridSlot(recs, city, s.start, grid, recs[k].day - s.start);
        }
      }
    }
  }
}
