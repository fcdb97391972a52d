/** `src/leaderboard/run_statistics.rs`: the leaderboard records and how a new run joins a stored file. */
module RunStatistics {
  import opened Wrappers
  import opened Text

  /** `CrossingStatistic`; the duration is a number the clock supplies. */
  datatype CrossingStatistic = CrossingStatistic(maxPerEdge: nat, duration: nat)

  /** `GraphStatistics`: every answer an optimizer gave for one graph, in arrival order. */
  datatype GraphStatistics = GraphStatistics(graph: string, crossings: seq<CrossingStatistic>)

  /** A `SingleRun` as stored. */
  datatype RunRecord = RunRecord(unixSeconds: nat, graphs: seq<GraphStatistics>)

  /** `RunStatistics`: one optimizer's leaderboard file. */
  datatype StatisticsFile = StatisticsFile(name: string, runs: seq<RunRecord>)

  /** `SingleRun` while it is being filled. */
  class SingleRun {
    var unixSeconds: nat
    var graphs: seq<GraphStatistics>

    /** `SingleRun::new`, `now` being the system time in seconds. */
    constructor (now: nat)
      ensures unixSeconds == now && graphs == []
    {
      unixSeconds := now;
      graphs := [];
    }

    /** `new_graph`: a fresh entry with no crossings at the end; its index stands for the returned reference. */
    method NewGraph(graph: string) returns (index: nat)
      modifies this
      ensures graphs == old(graphs) + [GraphStatistics(graph, [])]
      ensures index == |old(graphs)| && index < |graphs|
      ensures unixSeconds == old(unixSeconds)
    {
      graphs := graphs + [GraphStatistics(graph, [])];
      index := |graphs| - 1;
    }

    /** A push onto the `crossings` of the entry `new_graph` handed out. */
    method PushCrossing(index: nat, statistic: CrossingStatistic)
      requires index < |graphs|
      modifies this
      ensures |graphs| == |old(graphs)|
      ensures graphs[index] == GraphStatistics(old(graphs)[index].graph, old(graphs)[index].crossings + [statistic])
      ensures forall j :: 0 <= j < |graphs| && j != index ==> graphs[j] == old(graphs)[j]
      ensures unixSeconds == old(unixSeconds)
    {
      graphs := graphs[index := GraphStatistics(graphs[index].graph, graphs[index].crossings + [statistic])];
    }

    function Record(): RunRecord
      reads this
    {
      RunRecord(unixSeconds, graphs)
    }
  }

  /** Why `write_run` panics: the stored file is not blank and does not decode. */
  datatype MergeError = CorruptStatistics

  /** The statistics `write_run` starts from: a fresh file named `name` when blank, else the decoded contents. */
  function Stored(name: string, contents: string, parse: string -> Option<StatisticsFile>): (r: Option<StatisticsFile>)
    ensures IsBlank(contents) ==> r == Some(StatisticsFile(name, []))
    ensures !IsBlank(contents) ==> r == parse(contents)
  {
    TrimEmptyIffBlank(contents);
    if Trim(contents) == "" then Some(StatisticsFile(name, [])) else parse(contents)
  }

  /**
   * The merge in `write_run`: the name and the runs already stored are kept; the new run is
   * appended when it has at least one graph.
   */
  method WriteRun(name: string, contents: string, run: RunRecord, parse: string -> Option<StatisticsFile>)
    returns (r: Result<StatisticsFile, MergeError>)
    ensures r.Err? <==> Stored(name, contents, parse).None?
    ensures r.Ok? ==> var stored := Stored(name, contents, parse).value;
      r.value.name == stored.name
      && |stored.runs| <= |r.value.runs| && r.value.runs[..|stored.runs|] == stored.runs
      && (|r.value.runs| == |stored.runs| + 1 <==> |run.graphs| > 0)
      && (|r.value.runs| == |stored.runs| + 1 ==> r.value.runs[|stored.runs|] == run)
      && |r.value.runs| <= |stored.runs| + 1
  {
    var runStatistics;
    TrimEmptyIffBlank(contents);
    if Trim(contents) == "" {
      runStatistics := StatisticsFile(name, []);
    } else {
      var decoded := parse(contents);
      if decoded.None? {
        return Err(CorruptStatistics);
      }
      runStatistics := decoded.value;
    }
    if |run.graphs| > 0 {
      runStatistics := runStatistics.(runs := runStatistics.runs + [run]);
    }
    return Ok(runStatistics);
  }
}
