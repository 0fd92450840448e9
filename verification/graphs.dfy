/** Skill-count history: per-team series of `(seconds, count)` points
    reconstructed from grant instants, and their index-wise sum over the
    roster.

    The wall clock is an input: `cutoffOf(i)` is the instant, in
    milliseconds, that the query uses for the day `i` days before today.
 */
module Graphs {
  import opened Grants
  import opened TeamStore

  /** One point of a graph: `x` in whole seconds, `y` a skill count. */
  datatype Point = Point(x: int, y: int)

  /** Number of points a `days`-day query asks for. */
  function DayCount(days: int): nat {
    if days > 0 then days else 0
  }

  /** Milliseconds rounded down to whole seconds. */
  function Seconds(ms: int): (s: int)
    ensures s * 1000 <= ms < s * 1000 + 1000
  {
    ms / 1000
  }

  /** Number of grants made at or before `cutoff`: the size of the skills
      array filtered by `since <= cutoff`. */
  function CountUpTo(grants: seq<Grant>, cutoff: int): (n: nat)
    ensures n <= |grants|
    ensures (forall i :: 0 <= i < |grants| ==> grants[i].since <= cutoff) ==> n == |grants|
    ensures (forall i :: 0 <= i < |grants| ==> grants[i].since > cutoff) ==> n == 0
  {
    if |grants| == 0 then 0
    else (if grants[0].since <= cutoff then 1 else 0) + CountUpTo(grants[1..], cutoff)
  }

  /** A later cutoff counts at least as many grants. */
  lemma {:induction false} CountUpToMonotone(grants: seq<Grant>, c1: int, c2: int)
    requires c1 <= c2
    ensures CountUpTo(grants, c1) <= CountUpTo(grants, c2)
    decreases |grants|
  {
    if |grants| > 0 {
      CountUpToMonotone(grants[1..], c1, c2);
    }
  }

  /** A grant appended at `since` is counted by exactly the cutoffs at or
      after `since`: the history grows by one from that instant on. */
  lemma {:induction false} CountUpToAppend(grants: seq<Grant>, g: Grant, cutoff: int)
    ensures CountUpTo(grants + [g], cutoff) == CountUpTo(grants, cutoff) + (if g.since <= cutoff then 1 else 0)
    decreases |grants|
  {
    if |grants| > 0 {
      assert (grants + [g])[1..] == grants[1..] + [g];
      CountUpToAppend(grants[1..], g, cutoff);
    } else {
      assert [] + [g] == [g];
    }
  }

  /** Points for the days `i`, `i - 1`, ..., `0` before today, oldest first. */
  function DayPoints(grants: seq<Grant>, i: int, cutoffOf: int -> int): (r: seq<Point>)
    ensures |r| == DayCount(i + 1)
    ensures forall k :: 0 <= k < |r| ==>
              r[k] == Point(Seconds(cutoffOf(i - k)), CountUpTo(grants, cutoffOf(i - k)))
    decreases i + 1
  {
    if i < 0 then []
    else
      var earlier := DayPoints(grants, i - 1, cutoffOf);
      var r := [Point(Seconds(cutoffOf(i)), CountUpTo(grants, cutoffOf(i)))] + earlier;
      assert forall k :: 0 < k < |r| ==> r[k] == earlier[k - 1] && i - k == (i - 1) - (k - 1);
      r
  }

  /** The history of one team over the last `days` days, oldest first; a
      team without a document yields no points. */
  function TeamGraph(store: Store, team: string, days: int, cutoffOf: int -> int): (r: seq<Point>)
    ensures team !in store ==> r == []
    ensures team in store ==> |r| == DayCount(days)
    ensures forall k :: 0 <= k < |r| ==> 0 <= r[k].y <= |Current(store, team)|
    ensures forall k :: 0 <= k < |r| ==>
              r[k] == Point(Seconds(cutoffOf(days - 1 - k)), CountUpTo(Current(store, team), cutoffOf(days - 1 - k)))
  {
    if team in store then DayPoints(store[team], days - 1, cutoffOf) else []
  }

  /** When the cutoffs move forward in time towards today, so do the
      points' timestamps and counts. */
  lemma TeamGraphNonDecreasing(store: Store, team: string, days: int, cutoffOf: int -> int)
    requires forall i, j :: 0 <= i <= j ==> cutoffOf(j) <= cutoffOf(i)
    ensures var r := TeamGraph(store, team, days, cutoffOf);
            forall k1, k2 :: 0 <= k1 <= k2 < |r| ==> r[k1].x <= r[k2].x && r[k1].y <= r[k2].y
  {
    var r := TeamGraph(store, team, days, cutoffOf);
    forall k1, k2 | 0 <= k1 <= k2 < |r|
      ensures r[k1].x <= r[k2].x && r[k1].y <= r[k2].y
    {
      var c1, c2 := cutoffOf(days - 1 - k1), cutoffOf(days - 1 - k2);
      assert c1 <= c2;
      CountUpToMonotone(Current(store, team), c1, c2);
    }
  }

  // ---------------------------------------------------------------------
  // The aggregate graph: series summed by index, not by timestamp.

  function Max(a: int, b: int): int {
    if a < b then b else a
  }

  /** Length of the longest series. */
  function MaxLen(graphs: seq<seq<Point>>): nat {
    if |graphs| == 0 then 0
    else Max(MaxLen(graphs[..|graphs| - 1]), |graphs[|graphs| - 1]|)
  }

  /** Sum of the `y` of entry `i` over every series that has an entry `i`. */
  function ColumnSum(graphs: seq<seq<Point>>, i: nat): int {
    if |graphs| == 0 then 0
    else ColumnSum(graphs[..|graphs| - 1], i)
         + (if i < |graphs[|graphs| - 1]| then graphs[|graphs| - 1][i].y else 0)
  }

  /** No series reaches past the longest one. */
  lemma {:induction false} ColumnSumBeyondEnd(graphs: seq<seq<Point>>, i: nat)
    requires MaxLen(graphs) <= i
    ensures ColumnSum(graphs, i) == 0
    decreases |graphs|
  {
    if |graphs| > 0 {
      ColumnSumBeyondEnd(graphs[..|graphs| - 1], i);
    }
  }

  /** The `x` of entry `i` of the first series that has an entry `i`. */
  function FirstX(graphs: seq<seq<Point>>, i: nat): int
    requires i < MaxLen(graphs)
  {
    var last := graphs[|graphs| - 1];
    if i < MaxLen(graphs[..|graphs| - 1]) then FirstX(graphs[..|graphs| - 1], i)
    else last[i].x
  }

  /** Folds the series, in order, into one: where the running sum already
      has an entry `i` the series' `y` is added to it, otherwise the
      series' point is appended. */
  method SumGraphs(graphs: seq<seq<Point>>) returns (summed: seq<Point>)
    ensures |summed| == MaxLen(graphs)
    ensures forall i :: 0 <= i < |summed| ==> summed[i] == Point(FirstX(graphs, i), ColumnSum(graphs, i))
  {
    summed := [];
    var t := 0;
    while t < |graphs|
      invariant 0 <= t <= |graphs|
      invariant |summed| == MaxLen(graphs[..t])
      invariant forall i :: 0 <= i < |summed| ==>
                  summed[i] == Point(FirstX(graphs[..t], i), ColumnSum(graphs[..t], i))
    {
      var team := graphs[t];
      ghost var before := summed;
      var i := 0;
      while i < |team|
        invariant 0 <= i <= |team|
        invariant |summed| == Max(|before|, i)
        invariant forall k :: 0 <= k < |before| ==>
                    before[k] == Point(FirstX(graphs[..t], k), ColumnSum(graphs[..t], k))
        invariant forall k :: 0 <= k < |summed| ==>
                    summed[k] == (if k < |before| && k < i then Point(before[k].x, before[k].y + team[k].y)
                                  else if k < |before| then before[k]
                                  else team[k])
      {
        if i < |summed| {
          summed := summed[i := Point(summed[i].x, summed[i].y + team[i].y)];
        } else {
          summed := summed + [team[i]];
        }
        i := i + 1;
      }
      ghost var grown := graphs[..t + 1];
      assert grown[..|grown| - 1] == graphs[..t];
      assert grown[|grown| - 1] == team;
      assert |summed| == MaxLen(grown);
      forall k | 0 <= k < |summed|
        ensures summed[k] == Point(FirstX(grown, k), ColumnSum(grown, k))
      {
        assert ColumnSum(grown, k) == ColumnSum(graphs[..t], k) + (if k < |team| then team[k].y else 0);
        assert FirstX(grown, k) == if k < |before| then FirstX(graphs[..t], k) else team[k].x;
        if k >= |before| {
          ColumnSumBeyondEnd(graphs[..t], k);
        }
      }
      t := t + 1;
    }
    assert graphs[..|graphs|] == graphs;
  }

  // ---------------------------------------------------------------------
  // The aggregate over the roster.

  /** The series of every roster team, in roster order. */
  function RosterGraphs(store: Store, roster: Roster, days: int, cutoffOf: int -> int): (gs: seq<seq<Point>>)
    ensures |gs| == |roster|
    ensures forall k :: 0 <= k < |roster| ==> gs[k] == TeamGraph(store, roster[k].name, days, cutoffOf)
  {
    if |roster| == 0 then []
    else RosterGraphs(store, roster[..|roster| - 1], days, cutoffOf)
         + [TeamGraph(store, roster[|roster| - 1].name, days, cutoffOf)]
  }

  /** Some roster team has a document. */
  predicate AnyStored(store: Store, roster: Roster) {
    exists k :: 0 <= k < |roster| && roster[k].name in store
  }

  /** Grants made at or before `cutoff`, summed over the roster. */
  function RosterTotal(store: Store, roster: Roster, cutoff: int): int {
    if |roster| == 0 then 0
    else RosterTotal(store, roster[..|roster| - 1], cutoff)
         + CountUpTo(Current(store, roster[|roster| - 1].name), cutoff)
  }

  /** The roster's series, all of one length or empty, line up day by day. */
  lemma {:induction false} RosterGraphsAlign(store: Store, roster: Roster, days: int, cutoffOf: int -> int)
    ensures var gs := RosterGraphs(store, roster, days, cutoffOf);
            MaxLen(gs) == (if AnyStored(store, roster) then DayCount(days) else 0)
    ensures var gs := RosterGraphs(store, roster, days, cutoffOf);
            forall i :: 0 <= i < MaxLen(gs) ==> FirstX(gs, i) == Seconds(cutoffOf(days - 1 - i))
    ensures var gs := RosterGraphs(store, roster, days, cutoffOf);
            forall i :: 0 <= i < DayCount(days) ==> ColumnSum(gs, i) == RosterTotal(store, roster, cutoffOf(days - 1 - i))
    decreases |roster|
  {
    var gs := RosterGraphs(store, roster, days, cutoffOf);
    if |roster| == 0 {
    } else {
      var n := |roster| - 1;
      var prefix := roster[..n];
      var earlier := RosterGraphs(store, prefix, days, cutoffOf);
      RosterGraphsAlign(store, prefix, days, cutoffOf);
      assert gs[..n] == earlier;
      AnyStoredSplit(store, roster);
      var last := TeamGraph(store, roster[n].name, days, cutoffOf);
      assert gs[n] == last;
      assert MaxLen(gs) == Max(MaxLen(earlier), |last|);
      forall i | 0 <= i < MaxLen(gs)
        ensures FirstX(gs, i) == Seconds(cutoffOf(days - 1 - i))
      {
        assert FirstX(gs, i) == if i < MaxLen(earlier) then FirstX(earlier, i) else last[i].x;
      }
      forall i | 0 <= i < DayCount(days)
        ensures ColumnSum(gs, i) == RosterTotal(store, roster, cutoffOf(days - 1 - i))
      {
        var c := cutoffOf(days - 1 - i);
        assert ColumnSum(gs, i) == ColumnSum(earlier, i) + (if i < |last| then last[i].y else 0);
        assert RosterTotal(store, roster, c) == RosterTotal(store, prefix, c) + CountUpTo(Current(store, roster[n].name), c);
      }
    }
  }

  /** A roster has a stored team iff its leading part or its last entry does. */
  lemma AnyStoredSplit(store: Store, roster: Roster)
    requires |roster| > 0
    ensures AnyStored(store, roster) <==>
              AnyStored(store, roster[..|roster| - 1]) || roster[|roster| - 1].name in store
  {
    var prefix := roster[..|roster| - 1];
    if AnyStored(store, prefix) {
      var k :| 0 <= k < |prefix| && prefix[k].name in store;
      assert roster[k] == prefix[k];
    }
    if AnyStored(store, roster) && roster[|roster| - 1].name !in store {
      var k :| 0 <= k < |roster| && roster[k].name in store;
      assert prefix[k] == roster[k];
    }
  }

  /** The aggregate graph of the roster over the last `days` days: one point
      per day once any roster team has a document, each holding the day's
      timestamp and the number of grants all roster teams held by then. */
  method GetGraph(store: Store, roster: Roster, days: int, cutoffOf: int -> int) returns (summed: seq<Point>)
    ensures |summed| == (if AnyStored(store, roster) then DayCount(days) else 0)
    ensures forall i :: 0 <= i < |summed| ==>
              summed[i] == Point(Seconds(cutoffOf(days - 1 - i)), RosterTotal(store, roster, cutoffOf(days - 1 - i)))
  {
    var graphs := RosterGraphs(store, roster, days, cutoffOf);
    summed := SumGraphs(graphs);
    RosterGraphsAlign(store, roster, days, cutoffOf);
  }
}
