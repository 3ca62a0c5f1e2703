/**
 * Assembly of per-day forecast records out of the provider's parallel
 * `daily` arrays (the `data.daily.time.map(...)` in `getWeatherByCoords`),
 * and the split into "today" and the later days.
 */
module Forecast {
  import opened Options

  /**
   * A value read out of one of the numeric `daily` arrays, as JavaScript sees
   * it: `Missing` is `undefined` (an index past the end of the array), `Null`
   * is a JSON `null` in the array, `Num` is a number.
   */
  datatype Reading = Missing | Null | Num(value: real)

  /** One forecast day: `{date, tempMax, tempMin, rainProbability}`. */
  datatype Day = Day(date: string, tempMax: Reading, tempMin: Reading, rainProbability: Reading)

  /** JavaScript's `s[i]` for an index that is not negative. */
  function At(s: seq<Reading>, i: nat): Reading {
    if i < |s| then s[i] else Missing
  }

  /**
   * `time.map((date, i) => ({date, tempMax: maxs[i], tempMin: mins[i],
   * rainProbability: rains[i]}))`: one record per entry of `time`, record i
   * built from index i of every array.
   */
  function Assemble(time: seq<string>, maxs: seq<Reading>, mins: seq<Reading>, rains: seq<Reading>): (f: seq<Day>)
    ensures |f| == |time|
    ensures forall i :: 0 <= i < |f| ==>
              f[i].date == time[i] && f[i].tempMax == At(maxs, i) &&
              f[i].tempMin == At(mins, i) && f[i].rainProbability == At(rains, i)
  {
    if time == [] then []
    else
      var n := |time| - 1;
      Assemble(time[..n], maxs, mins, rains) + [Day(time[n], At(maxs, n), At(mins, n), At(rains, n))]
  }

  /** `forecast[0]`; on an empty forecast the source reads a property of `undefined` and throws. */
  function Today(f: seq<Day>): (r: Option<Day>)
    ensures r.Some? <==> |f| > 0
    ensures r.Some? ==> r.value == f[0]
  {
    if f == [] then None else Some(f[0])
  }

  /** `forecast.slice(1)`: the days shown on the later cards. */
  function LaterDays(f: seq<Day>): (r: seq<Day>)
    ensures |r| == if f == [] then 0 else |f| - 1
    ensures forall j :: 0 <= j < |r| ==> r[j] == f[j + 1]
  {
    if f == [] then [] else f[1..]
  }

  /** When the provider returns at least one date, today is built from index 0 of every array. */
  lemma TodayIsFirstIndex(time: seq<string>, maxs: seq<Reading>, mins: seq<Reading>, rains: seq<Reading>)
    requires |time| > 0
    ensures Today(Assemble(time, maxs, mins, rains)) ==
              Some(Day(time[0], At(maxs, 0), At(mins, 0), At(rains, 0)))
  {
  }

  /** With no dates there is no today (the page throws) and no later card. */
  lemma NoDatesNoToday(maxs: seq<Reading>, mins: seq<Reading>, rains: seq<Reading>)
    ensures Today(Assemble([], maxs, mins, rains)) == None
    ensures LaterDays(Assemble([], maxs, mins, rains)) == []
  {
  }

  /**
   * The later cards are exactly the records for dates 1 .. |time|-1, card j
   * taking its values from index j + 1; together with today they are the
   * whole forecast.
   */
  lemma LaterDaysAligned(time: seq<string>, maxs: seq<Reading>, mins: seq<Reading>, rains: seq<Reading>)
    requires |time| > 0
    ensures var later := LaterDays(Assemble(time, maxs, mins, rains));
            |later| == |time| - 1 &&
            (forall j :: 0 <= j < |later| ==>
               later[j] == Day(time[j + 1], At(maxs, j + 1), At(mins, j + 1), At(rains, j + 1)))
    ensures [Today(Assemble(time, maxs, mins, rains)).value] + LaterDays(Assemble(time, maxs, mins, rains)) ==
              Assemble(time, maxs, mins, rains)
  {
  }

  /**
   * When every numeric array is at least as long as `time`, no record holds
   * `undefined`: each field is the array element at that index.
   */
  lemma FullArraysNoMissing(time: seq<string>, maxs: seq<Reading>, mins: seq<Reading>, rains: seq<Reading>, i: nat)
    requires |maxs| >= |time| && |mins| >= |time| && |rains| >= |time|
    requires i < |time|
    ensures Assemble(time, maxs, mins, rains)[i] == Day(time[i], maxs[i], mins[i], rains[i])
  {
  }
}
