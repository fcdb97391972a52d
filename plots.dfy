/**
 * The table behind the leaderboard chart in `src/leaderboard/plots.rs`: the graph names, their
 * column index, and the best score any run reached on each graph.
 */
module Plots {
  import opened Wrappers
  import Geometry
  import opened RunStatistics

  /** `GraphStatistics::max_per_edge()`, outside the model. */
  type Score = GraphStatistics -> Geometry.u32

  /** The numeric sort applied to the names, outside the model; it only reorders. */
  type Sorter = seq<string> -> seq<string>

  ghost predicate Permutes(sort: Sorter)
  {
    forall s :: multiset(sort(s)) == multiset(s)
  }

  function RunGraphs(runs: seq<RunRecord>): seq<GraphStatistics>
  {
    if runs == [] then [] else runs[0].graphs + RunGraphs(runs[1..])
  }

  /** Every graph entry of every run of every file, in order. */
  function AllGraphs(all: seq<StatisticsFile>): seq<GraphStatistics>
  {
    if all == [] then [] else RunGraphs(all[0].runs) + AllGraphs(all[1..])
  }

  function NamesOf(graphs: seq<GraphStatistics>): (r: seq<string>)
    ensures |r| == |graphs| && forall i :: 0 <= i < |r| ==> r[i] == graphs[i].graph
  {
    seq(|graphs|, i requires 0 <= i < |graphs| => graphs[i].graph)
  }

  /** `get_graph_names`: the name of every graph entry, repeats kept, in sorted order. */
  function GetGraphNames(all: seq<StatisticsFile>, sort: Sorter): (r: seq<string>)
    requires Permutes(sort)
    ensures multiset(r) == multiset(NamesOf(AllGraphs(all)))
    ensures forall g :: g in AllGraphs(all) ==> g.graph in r
  {
    var names := NamesOf(AllGraphs(all));
    assert forall g :: g in AllGraphs(all) ==> g.graph in names by {
      forall g | g in AllGraphs(all)
        ensures g.graph in names
      {
        var i :| 0 <= i < |AllGraphs(all)| && AllGraphs(all)[i] == g;
        assert names[i] == g.graph;
      }
    }
    assert forall x :: x in names ==> x in multiset(sort(names));
    sort(names)
  }

  // ---------------------------------------------------------------------------
  // `make_graph_ids`

  /** The map collected from the first `k` (name, index) pairs: a later pair overwrites an earlier one. */
  function IdsUpTo(names: seq<string>, k: nat): (ids: map<string, nat>)
    requires k <= |names|
    ensures forall n :: n in ids <==> n in names[..k]
    ensures forall n :: n in ids ==> ids[n] < k && names[ids[n]] == n
    ensures forall n, j :: n in ids && ids[n] < j < k ==> names[j] != n
  {
    if k == 0 then map[]
    else
      assert names[..k] == names[..k - 1] + [names[k - 1]];
      IdsUpTo(names, k - 1)[names[k - 1] := k - 1]
  }

  /** `make_graph_ids`: every name maps to a position holding it, the last such position. */
  function MakeGraphIds(names: seq<string>): (ids: map<string, nat>)
    ensures forall n :: n in ids <==> n in names
    ensures forall n :: n in ids ==> ids[n] < |names| && names[ids[n]] == n
    ensures forall n, j :: n in ids && ids[n] < j < |names| ==> names[j] != n
  {
    assert names[..|names|] == names;
    IdsUpTo(names, |names|)
  }

  // ---------------------------------------------------------------------------
  // `get_best_crossing_values`

  /** Why building the table panics: a name missing from the map, or an index past the vector. */
  datatype PlotPanic = MissingName(name: string) | IndexOutOfBounds(index: nat, len: nat)

  function Min(a: Geometry.u32, b: Geometry.u32): Geometry.u32
  {
    if a <= b then a else b
  }

  /** The loop from the `k`-th graph entry with the vector `values` so far. */
  function BestFrom(graphs: seq<GraphStatistics>, k: nat, ids: map<string, nat>, values: seq<Geometry.u32>, score: Score)
    : (r: Result<seq<Geometry.u32>, PlotPanic>)
    requires k <= |graphs|
    ensures r.Ok? ==> |r.value| == |values|
    ensures r.Ok? ==> forall j :: k <= j < |graphs| ==> graphs[j].graph in ids && ids[graphs[j].graph] < |values|
    decreases |graphs| - k
  {
    if k == |graphs| then Ok(values)
    else
      var name := graphs[k].graph;
      if name !in ids then Err(MissingName(name))
      else if ids[name] >= |values| then Err(IndexOutOfBounds(ids[name], |values|))
      else BestFrom(graphs, k + 1, ids, values[ids[name] := Min(values[ids[name]], score(graphs[k]))], score)
  }

  function Unset(n: nat): (r: seq<Geometry.u32>)
    ensures |r| == n && forall i :: 0 <= i < n ==> r[i] == Geometry.U32_MAX
  {
    seq(n, _ => Geometry.U32_MAX)
  }

  /** What `get_best_crossing_values` returns: one slot per map entry, filled over all graph entries. */
  function BestValues(all: seq<StatisticsFile>, ids: map<string, nat>, score: Score): Result<seq<Geometry.u32>, PlotPanic>
  {
    BestFrom(AllGraphs(all), 0, ids, Unset(|ids|), score)
  }

  /** `get_best_crossing_values`. */
  method GetBestCrossingValues(all: seq<StatisticsFile>, ids: map<string, nat>, score: Score)
    returns (r: Result<array<Geometry.u32>, PlotPanic>)
    ensures r.Ok? <==> BestValues(all, ids, score).Ok?
    ensures r.Ok? ==> r.value[..] == BestValues(all, ids, score).value
    ensures r.Err? ==> r == Err(BestValues(all, ids, score).error)
  {
    var bestValues := new Geometry.u32[|ids|](_ => Geometry.U32_MAX);
    assert bestValues[..] == Unset(|ids|);
    var graphs := AllGraphs(all);
    for k := 0 to |graphs|
      invariant BestFrom(graphs, k, ids, bestValues[..], score) == BestValues(all, ids, score)
    {
      var name := graphs[k].graph;
      if name !in ids {
        return Err(MissingName(name));
      }
      var id := ids[name];
      if id >= bestValues.Length {
        return Err(IndexOutOfBounds(id, bestValues.Length));
      }
      bestValues[id] := Min(bestValues[id], score(graphs[k]));
    }
    return Ok(bestValues);
  }

  /** The loop succeeds exactly when every entry's name is mapped to an index inside the vector. */
  lemma {:induction false} BestFromSucceeds(graphs: seq<GraphStatistics>, k: nat, ids: map<string, nat>,
                                            values: seq<Geometry.u32>, score: Score)
    requires k <= |graphs|
    ensures BestFrom(graphs, k, ids, values, score).Ok? <==>
      forall j :: k <= j < |graphs| ==> graphs[j].graph in ids && ids[graphs[j].graph] < |values|
    decreases |graphs| - k
  {
    if k < |graphs| {
      var name := graphs[k].graph;
      if name in ids && ids[name] < |values| {
        BestFromSucceeds(graphs, k + 1, ids, values[ids[name] := Min(values[ids[name]], score(graphs[k]))], score);
      }
    }
  }

  /**
   * Each slot only ever decreases; the slot of every entry ends at most that entry's score; and a
   * slot that moved holds the score of an entry mapped to it: each slot is the minimum over its entries.
   */
  lemma {:induction false} BestFromIsMinimum(graphs: seq<GraphStatistics>, k: nat, ids: map<string, nat>,
                                             values: seq<Geometry.u32>, score: Score)
    requires k <= |graphs|
    ensures var r := BestFrom(graphs, k, ids, values, score);
      r.Ok? ==>
        |r.value| == |values|
        && (forall i :: 0 <= i < |values| ==> r.value[i] <= values[i])
        && (forall j :: k <= j < |graphs| ==> r.value[ids[graphs[j].graph]] <= score(graphs[j]))
        && (forall i :: 0 <= i < |values| ==>
              r.value[i] == values[i]
              || exists j :: k <= j < |graphs| && ids[graphs[j].graph] == i && r.value[i] == score(graphs[j]))
    decreases |graphs| - k
  {
    BestFromSucceeds(graphs, k, ids, values, score);
    var r := BestFrom(graphs, k, ids, values, score);
    if k < |graphs| && r.Ok? {
      var name := graphs[k].graph;
      var id := ids[name];
      var next := values[id := Min(values[id], score(graphs[k]))];
      BestFromIsMinimum(graphs, k + 1, ids, next, score);
      assert r == BestFrom(graphs, k + 1, ids, next, score);
      forall i | 0 <= i < |values|
        ensures r.value[i] == values[i]
          || exists j :: k <= j < |graphs| && ids[graphs[j].graph] == i && r.value[i] == score(graphs[j])
      {
        if r.value[i] != next[i] {
          var j :| k + 1 <= j < |graphs| && ids[graphs[j].graph] == i && r.value[i] == score(graphs[j]);
        } else if i == id && next[i] != values[i] {
          assert r.value[i] == score(graphs[k]);
        }
      }
    }
  }

  // ---------------------------------------------------------------------------
  // Repeated names: the table as `plot_runs` builds it, and with distinct names

  /** The table as `plot_runs` builds it. */
  function PlotTableAsWritten(all: seq<StatisticsFile>, sort: Sorter, score: Score): Result<seq<Geometry.u32>, PlotPanic>
    requires Permutes(sort)
  {
    BestValues(all, MakeGraphIds(GetGraphNames(all, sort)), score)
  }

  /**
   * A leaderboard with two runs of the same graph: the name is listed twice, the map has one
   * entry pointing at index 1, the vector has one slot, and indexing it panics.
   */
  lemma RepeatedGraphPanics(sort: Sorter, score: Score)
    requires Permutes(sort)
    ensures var g := GraphStatistics("a", []);
      var all := [StatisticsFile("team", [RunRecord(0, [g]), RunRecord(1, [g])])];
      PlotTableAsWritten(all, sort, score) == Err(IndexOutOfBounds(1, 1))
  {
    var g := GraphStatistics("a", []);
    var all := [StatisticsFile("team", [RunRecord(0, [g]), RunRecord(1, [g])])];
    TwoRunsOfOneGraph(g, all);
    var names := GetGraphNames(all, sort);
    SortedRepeat(names, multiset(NamesOf([g, g])));
    var ids := MakeGraphIds(names);
    assert ids.Keys == {"a"};
    assert ids == map["a" := 1];
    assert Unset(|ids|) == [Geometry.U32_MAX];
  }

  lemma TwoRunsOfOneGraph(g: GraphStatistics, all: seq<StatisticsFile>)
    requires all == [StatisticsFile("team", [RunRecord(0, [g]), RunRecord(1, [g])])]
    ensures AllGraphs(all) == [g, g]
  {
    assert RunGraphs([RunRecord(1, [g])]) == [g];
    assert AllGraphs(all[1..]) == [];
  }

  lemma SortedRepeat(names: seq<string>, m: multiset<string>)
    requires m == multiset(NamesOf([GraphStatistics("a", []), GraphStatistics("a", [])]))
    requires multiset(names) == m
    ensures names == ["a", "a"]
  {
    assert NamesOf([GraphStatistics("a", []), GraphStatistics("a", [])]) == ["a", "a"];
    assert m == multiset{"a", "a"};
    assert |names| == 2;
    assert names[0] in multiset(names) && names[1] in multiset(names);
  }

  predicate Distinct(s: seq<string>)
  {
    forall i, j :: 0 <= i < j < |s| ==> s[i] != s[j]
  }

  /** Each name once; the last copy of each is kept, so a sorted list stays sorted. */
  function Dedup(s: seq<string>): (r: seq<string>)
    ensures forall x :: x in r <==> x in s
    ensures Distinct(r)
  {
    if s == [] then []
    else
      var rest := Dedup(s[1..]);
      if s[0] in rest then rest
      else
        assert forall x :: x in [s[0]] + rest <==> x in s by {
          assert s == [s[0]] + s[1..];
        }
        [s[0]] + rest
  }

  lemma {:induction false} DistinctCardinality(s: seq<string>)
    requires Distinct(s)
    ensures |set x | x in s| == |s|
  {
    if s != [] {
      DistinctCardinality(s[1..]);
      assert (set x | x in s) == (set x | x in s[1..]) + {s[0]};
      assert s[0] !in s[1..];
    }
  }

  /** The graph names with repeats removed, in sorted order. */
  function DistinctGraphNames(all: seq<StatisticsFile>, sort: Sorter): (r: seq<string>)
    requires Permutes(sort)
    ensures Distinct(r)
    ensures forall g :: g in AllGraphs(all) ==> g.graph in r
  {
    Dedup(GetGraphNames(all, sort))
  }

  /** The table built from distinct names. */
  function PlotTable(all: seq<StatisticsFile>, sort: Sorter, score: Score): Result<seq<Geometry.u32>, PlotPanic>
    requires Permutes(sort)
  {
    BestValues(all, MakeGraphIds(DistinctGraphNames(all, sort)), score)
  }

  /**
   * With distinct names the table never panics: every entry has a slot, every slot is at most
   * the score of each of its entries and equals one of them, and a slot no entry maps to stays at `u32::MAX`.
   */
  lemma {:induction false} DistinctNamesNeverPanic(all: seq<StatisticsFile>, sort: Sorter, score: Score)
    requires Permutes(sort)
    ensures PlotTable(all, sort, score).Ok?
    ensures var ids := MakeGraphIds(DistinctGraphNames(all, sort));
      var best := PlotTable(all, sort, score).value;
      var graphs := AllGraphs(all);
      |best| == |DistinctGraphNames(all, sort)|
      && (forall j :: 0 <= j < |graphs| ==> best[ids[graphs[j].graph]] <= score(graphs[j]))
      && (forall i :: 0 <= i < |best| ==>
            best[i] == Geometry.U32_MAX || exists j :: 0 <= j < |graphs| && ids[graphs[j].graph] == i && best[i] == score(graphs[j]))
  {
    var names := DistinctGraphNames(all, sort);
    var ids := MakeGraphIds(names);
    var graphs := AllGraphs(all);
    DistinctIdsFillVector(names);
    EveryEntryHasSlot(graphs, names);
    TableOfCoveredEntries(graphs, ids, score);
    assert PlotTable(all, sort, score) == BestFrom(graphs, 0, ids, Unset(|ids|), score);
  }

  /** The loop over entries that all have a slot finishes with each slot the minimum of its entries' scores. */
  lemma TableOfCoveredEntries(graphs: seq<GraphStatistics>, ids: map<string, nat>, score: Score)
    requires forall j :: 0 <= j < |graphs| ==> graphs[j].graph in ids && ids[graphs[j].graph] < |ids|
    ensures BestFrom(graphs, 0, ids, Unset(|ids|), score).Ok?
    ensures var best := BestFrom(graphs, 0, ids, Unset(|ids|), score).value;
      |best| == |ids|
      && (forall j :: 0 <= j < |graphs| ==> best[ids[graphs[j].graph]] <= score(graphs[j]))
      && (forall i :: 0 <= i < |best| ==>
            best[i] == Geometry.U32_MAX || exists j :: 0 <= j < |graphs| && ids[graphs[j].graph] == i && best[i] == score(graphs[j]))
  {
    BestFromSucceeds(graphs, 0, ids, Unset(|ids|), score);
    BestFromIsMinimum(graphs, 0, ids, Unset(|ids|), score);
  }

  /** Distinct names get one map entry each. */
  lemma DistinctIdsFillVector(names: seq<string>)
    requires Distinct(names)
    ensures |MakeGraphIds(names)| == |names|
  {
    DistinctCardinality(names);
    assert MakeGraphIds(names).Keys == set x | x in names;
  }

  /** When the names cover every entry, every entry's name has a slot in a vector of one slot per name. */
  lemma EveryEntryHasSlot(graphs: seq<GraphStatistics>, names: seq<string>)
    requires forall g :: g in graphs ==> g.graph in names
    ensures forall j :: 0 <= j < |graphs| ==>
      graphs[j].graph in MakeGraphIds(names) && MakeGraphIds(names)[graphs[j].graph] < |names|
  {
    forall j | 0 <= j < |graphs|
      ensures graphs[j].graph in MakeGraphIds(names)
    {
      assert graphs[j] in graphs;
    }
  }

}
