/**
 * `GraphsModeRunner::run` of `src/graphs_runner.rs`: send every selected corpus graph to one
 * optimizer, score each answer, and skip the graphs it crashed on.
 */
module GraphsRunner {
  import opened Wrappers
  import opened Session
  import Geometry
  import Crossings
  import Validation
  import Corpus

  /** `GraphStats` without its duration: the graph's name and its score, None when disqualified. */
  datatype GraphStats = GraphStats(graph: string, maxPerEdge: Option<nat>)

  /** `RunStats`. */
  datatype RunStats = RunStats(name: string, runs: seq<GraphStats>)

  /** Why a run ends early. */
  datatype Fault =
    | NoGraphsFound                     // panic: nothing left after filtering
    | ExpectedStart(got: Message)       // panic inside `read_start`
    | UnparsableInput(name: string)     // `io::Error` from decoding the input graph
    | EndpointOutOfRange(name: string)  // panic inside `crossings`
    | InvalidData(got: Message)         // `io::Error`: neither a graph nor a crash

  /** Decoding a graph file, outside the model. */
  type InputParser = seq<Corpus.byte> -> Option<Geometry.Graph>

  // ---------------------------------------------------------------------------
  // Scoring one answer

  /**
   * The score recorded for `output`, answered for `input`. `crossings` runs first and panics on an
   * out-of-range endpoint; then an invalid drawing or a changed node or edge count disqualifies.
   * The isomorphism check only prints a warning and takes no part.
   */
  function Gate(input: Geometry.Graph, output: Geometry.Graph, name: string): (r: Result<Option<nat>, Fault>)
    ensures r.Err? <==> !Crossings.EndpointsInRange(output)
    ensures r.Err? ==> r.error == EndpointOutOfRange(name)
    ensures r.Ok? ==>
      (r.value.Some? <==> Validation.ValidDrawing(output)
                          && |output.nodes| == |input.nodes| && |output.edges| == |input.edges|)
    ensures r.Ok? && r.value.Some? ==> r.value.value == Crossings.MaxPerEdge(output)
  {
    if !Crossings.EndpointsInRange(output) then Err(EndpointOutOfRange(name))
    else
      Validation.ValidateOkIffValidDrawing(output);
      var maxPerEdge := Crossings.MaxPerEdge(output);
      if Validation.Validate(output).Ok? && |input.nodes| == |output.nodes| && |input.edges| == |output.edges|
      then Ok(Some(maxPerEdge))
      else Ok(None)
  }

  /**
   * Because `crossings` runs before `is_valid`, an answer with an out-of-range endpoint ends the
   * whole run, although `is_valid` would only have disqualified it.
   */
  lemma {:induction false} OutOfRangeAnswerPanicsInsteadOfDisqualifying(input: Geometry.Graph, output: Geometry.Graph, name: string)
    requires !Crossings.EndpointsInRange(output)
    ensures Gate(input, output, name) == Err(EndpointOutOfRange(name))
    ensures Validation.Validate(output).Err?
  {
    Validation.ValidateOkIffValidDrawing(output);
    var i :| 0 <= i < |output.edges| && !(output.edges[i].source < |output.nodes| && output.edges[i].target < |output.nodes|);
    assert !Validation.EdgeInRange(output, output.edges[i]);
  }

  /** A drawing with an edge to a missing node: the run panics on it. */
  lemma DanglingEdgeFixture()
    ensures var output := Geometry.Graph([Geometry.Node(0, 0, 0)], [], [Geometry.Edge(0, 1)], 10, 10);
      Gate(output, output, "g") == Err(EndpointOutOfRange("g"))
  {
  }

  // ---------------------------------------------------------------------------
  // One graph

  /** What one selected graph does to the run. */
  datatype GraphStep = Recorded(stats: GraphStats) | Restarted | Failed(fault: Fault) | Hung

  /** `read_start` on the message stream. */
  function StartName(messages: seq<Message>): (Outcome<string, Fault>, seq<Message>)
  {
    if messages == [] then (Stuck, [])
    else if messages[0].Start? then (Completed(messages[0].name), messages[1..])
    else (Panicked(ExpectedStart(messages[0])), messages[1..])
  }

  /**
   * One iteration of the loop over `entry`: the step, the messages left and the requests written.
   * A crash (`NoResponse`) restarts the optimizer, whose fresh output must begin with `START`.
   */
  function GraphStepSpec(entry: Corpus.Entry, parseInput: InputParser, messages: seq<Message>, written: seq<seq<Corpus.byte>>)
    : (r: (GraphStep, seq<Message>, seq<seq<Corpus.byte>>))
    ensures |r.1| <= |messages|
    ensures r.2 == written || r.2 == written + [Corpus.NewlinesToSpaces(entry.contents)]
    ensures r.0.Recorded? ==> r.0.stats.graph == entry.name
  {
    var bytes := Corpus.NewlinesToSpaces(entry.contents);
    var input := parseInput(bytes);
    if input.None? then (Failed(UnparsableInput(entry.name)), messages, written)
    else if messages == [] then (Hung, [], written + [bytes])
    else match messages[0]
      case GraphResult(output) =>
        var gate := Gate(input.value, output, entry.name);
        if gate.Err? then (Failed(gate.error), messages[1..], written + [bytes])
        else (Recorded(GraphStats(entry.name, gate.value)), messages[1..], written + [bytes])
      case NoResponse(_) =>
        var (start, rest) := StartName(messages[1..]);
        if start.Stuck? then (Hung, rest, written + [bytes])
        else if start.Panicked? then (Failed(start.reason), rest, written + [bytes])
        else (Restarted, rest, written + [bytes])
      case other => (Failed(InvalidData(other)), messages[1..], written + [bytes])
  }

  /** `read_start`. */
  method ReadStart(optimizer: Channel) returns (r: Outcome<string, Fault>)
    modifies optimizer
    ensures (r, optimizer.pending) == StartName(old(optimizer.pending))
    ensures optimizer.written == old(optimizer.written)
  {
    var response := optimizer.Receive();
    if response.None? {
      return Stuck;
    }
    if response.value.Start? {
      return Completed(response.value.name);
    }
    return Panicked(ExpectedStart(response.value));
  }

  /** The body of the loop in `run` for one graph file. */
  method RunGraph(entry: Corpus.Entry, parseInput: InputParser, optimizer: Channel) returns (step: GraphStep)
    modifies optimizer
    ensures (step, optimizer.pending, optimizer.written)
      == GraphStepSpec(entry, parseInput, old(optimizer.pending), old(optimizer.written))
  {
    var graphBytes := Corpus.NewlinesToSpaces(entry.contents);
    var inputGraph := parseInput(graphBytes);
    if inputGraph.None? {
      return Failed(UnparsableInput(entry.name));
    }
    optimizer.Send(graphBytes);

    var response := optimizer.Receive();
    if response.None? {
      return Hung;
    }
    var graph;
    match response.value {
      case GraphResult(g) => graph := g;
      case NoResponse(_) =>
        var start := ReadStart(optimizer);
        if start.Stuck? {
          return Hung;
        } else if start.Panicked? {
          return Failed(start.reason);
        }
        return Restarted;
      case other => return Failed(InvalidData(other));
    }

    if !Crossings.EndpointsInRange(graph) {
      return Failed(EndpointOutOfRange(entry.name));
    }
    var crossings := Crossings.CountCrossings(graph);
    var result := GraphStats(entry.name, Some(crossings.maxPerEdge));

    var valid := Validation.IsValid(graph);
    if valid.Err? {
      result := result.(maxPerEdge := None);
    }
    if |inputGraph.value.nodes| != |graph.nodes| {
      result := result.(maxPerEdge := None);
    }
    if |inputGraph.value.edges| != |graph.edges| {
      result := result.(maxPerEdge := None);
    }
    return Recorded(result);
  }

  // ---------------------------------------------------------------------------
  // The whole run

  /** The loop over the selected graphs from the `k`-th, with `runs` recorded so far. */
  function RunFrom(graphs: seq<(nat, Corpus.Entry)>, k: nat, runs: seq<GraphStats>, parseInput: InputParser,
                   messages: seq<Message>, written: seq<seq<Corpus.byte>>)
    : (r: (Outcome<seq<GraphStats>, Fault>, seq<Message>, seq<seq<Corpus.byte>>))
    requires k <= |graphs|
    ensures |r.1| <= |messages|
    ensures written <= r.2 && |r.2| <= |written| + |graphs| - k
    decreases |graphs| - k
  {
    if k == |graphs| then (Completed(runs), messages, written)
    else
      var (step, rest, written') := GraphStepSpec(graphs[k].1, parseInput, messages, written);
      match step
      case Recorded(stats) => RunFrom(graphs, k + 1, runs + [stats], parseInput, rest, written')
      case Restarted => RunFrom(graphs, k + 1, runs, parseInput, rest, written')
      case Failed(fault) => (Panicked(fault), rest, written')
      case Hung => (Stuck, rest, written')
  }

  /** What `run` returns for the collected `graphs`, with the messages left and the requests written. */
  function RunSpec(graphs: seq<Corpus.Entry>, filter: Option<string>, skipTo: Option<string>, parseInput: InputParser,
                   messages: seq<Message>, written: seq<seq<Corpus.byte>>)
    : (Outcome<RunStats, Fault>, seq<Message>, seq<seq<Corpus.byte>>)
  {
    var filtered := Corpus.FilterGraphs(graphs, filter);
    if filtered == [] then (Panicked(NoGraphsFound), messages, written)
    else
      var (team, rest) := StartName(messages);
      if team.Stuck? then (Stuck, rest, written)
      else if team.Panicked? then (Panicked(team.reason), rest, written)
      else
        var selected := Corpus.SkipTo(filtered, if skipTo.Some? then skipTo.value else "");
        var (outcome, rest', written') := RunFrom(selected, 0, [], parseInput, rest, written);
        if outcome.Stuck? then (Stuck, rest', written')
        else if outcome.Panicked? then (Panicked(outcome.reason), rest', written')
        else (Completed(RunStats(team.value, outcome.value)), rest', written')
  }

  /** `GraphsModeRunner::run`. */
  method Run(graphs: seq<Corpus.Entry>, filter: Option<string>, skipTo: Option<string>, parseInput: InputParser,
             optimizer: Channel) returns (r: Outcome<RunStats, Fault>)
    modifies optimizer
    ensures (r, optimizer.pending, optimizer.written)
      == RunSpec(graphs, filter, skipTo, parseInput, old(optimizer.pending), old(optimizer.written))
  {
    var filtered := Corpus.FilterGraphs(graphs, filter);
    if filtered == [] {
      return Panicked(NoGraphsFound);
    }
    var skip := if skipTo.Some? then skipTo.value else "";

    var teamName := ReadStart(optimizer);
    if teamName.Stuck? {
      return Stuck;
    } else if teamName.Panicked? {
      return Panicked(teamName.reason);
    }
    var selected := Corpus.SkipTo(filtered, skip);
    var runs := RunGraphs(selected, parseInput, optimizer);
    if runs.Stuck? {
      return Stuck;
    } else if runs.Panicked? {
      return Panicked(runs.reason);
    }
    return Completed(RunStats(teamName.value, runs.value));
  }

  /** The `for` loop of `run`: one step per selected graph, pushing a result for each answered one. */
  method RunGraphs(selected: seq<(nat, Corpus.Entry)>, parseInput: InputParser, optimizer: Channel)
    returns (r: Outcome<seq<GraphStats>, Fault>)
    modifies optimizer
    ensures (r, optimizer.pending, optimizer.written)
      == RunFrom(selected, 0, [], parseInput, old(optimizer.pending), old(optimizer.written))
  {
    var runs := [];
    for k := 0 to |selected|
      invariant RunFrom(selected, k, runs, parseInput, optimizer.pending, optimizer.written)
        == RunFrom(selected, 0, [], parseInput, old(optimizer.pending), old(optimizer.written))
    {
      var step := RunGraph(selected[k].1, parseInput, optimizer);
      match step {
        case Recorded(stats) => runs := runs + [stats];
        case Restarted =>
        case Failed(fault) => return Panicked(fault);
        case Hung => return Stuck;
      }
    }
    return Completed(runs);
  }

  // ---------------------------------------------------------------------------
  // What the recorded runs are

  function Names(stats: seq<GraphStats>): (r: seq<string>)
    ensures |r| == |stats|
  {
    seq(|stats|, i requires 0 <= i < |stats| => stats[i].graph)
  }

  function EntryNames(graphs: seq<(nat, Corpus.Entry)>): (r: seq<string>)
    ensures |r| == |graphs|
  {
    seq(|graphs|, i requires 0 <= i < |graphs| => graphs[i].1.name)
  }

  /** `a` can be obtained from `b` by deleting elements. */
  predicate IsSubsequence(a: seq<string>, b: seq<string>)
    decreases |b|
  {
    a == [] || (b != [] && ((a[0] == b[0] && IsSubsequence(a[1..], b[1..])) || IsSubsequence(a, b[1..])))
  }

  lemma {:induction false} RecordedExtends(runs: seq<GraphStats>, stats: GraphStats, out: seq<GraphStats>, names: seq<string>)
    requires |runs| + 1 <= |out| && out[..|runs| + 1] == runs + [stats]
    requires names != [] && names[0] == stats.graph
    requires IsSubsequence(Names(out[|runs| + 1..]), names[1..])
    ensures out[..|runs|] == runs
    ensures IsSubsequence(Names(out[|runs|..]), names)
  {
    assert out[..|runs|] == (out[..|runs| + 1])[..|runs|];
    var tail := Names(out[|runs|..]);
    assert tail[0] == out[|runs|].graph == stats.graph;
    assert tail[1..] == Names(out[|runs| + 1..]);
  }

  /**
   * `runs` grows only at its end, with one entry per answered graph, in processing order: the
   * names recorded form a subsequence of the names of the graphs processed.
   */
  lemma {:induction false} RunsFollowProcessingOrder(graphs: seq<(nat, Corpus.Entry)>, k: nat, runs: seq<GraphStats>,
                                                     parseInput: InputParser, messages: seq<Message>, written: seq<seq<Corpus.byte>>)
    requires k <= |graphs|
    ensures var outcome := RunFrom(graphs, k, runs, parseInput, messages, written).0;
      outcome.Completed? ==>
        |runs| <= |outcome.value| && outcome.value[..|runs|] == runs
        && IsSubsequence(Names(outcome.value[|runs|..]), EntryNames(graphs[k..]))
    decreases |graphs| - k
  {
    var outcome := RunFrom(graphs, k, runs, parseInput, messages, written).0;
    if k < |graphs| {
      var next := GraphStepSpec(graphs[k].1, parseInput, messages, written);
      var names := EntryNames(graphs[k..]);
      assert names[1..] == EntryNames(graphs[k + 1..]);
      RunFromStep(graphs, k, runs, parseInput, messages, written);
      if next.0.Recorded? {
        var runs' := runs + [next.0.stats];
        RunsFollowProcessingOrder(graphs, k + 1, runs', parseInput, next.1, next.2);
        if outcome.Completed? {
          RecordedExtends(runs, next.0.stats, outcome.value, names);
        }
      } else if next.0.Restarted? {
        RunsFollowProcessingOrder(graphs, k + 1, runs, parseInput, next.1, next.2);
      }
    }
  }

  /** One graph of the run: a recorded or restarted graph passes on to the next, anything else ends the run unfinished. */
  lemma RunFromStep(graphs: seq<(nat, Corpus.Entry)>, k: nat, runs: seq<GraphStats>, parseInput: InputParser,
                    messages: seq<Message>, written: seq<seq<Corpus.byte>>)
    requires k < |graphs|
    ensures var next := GraphStepSpec(graphs[k].1, parseInput, messages, written);
      var outcome := RunFrom(graphs, k, runs, parseInput, messages, written).0;
      && (next.0.Recorded? ==> outcome == RunFrom(graphs, k + 1, runs + [next.0.stats], parseInput, next.1, next.2).0)
      && (next.0.Restarted? ==> outcome == RunFrom(graphs, k + 1, runs, parseInput, next.1, next.2).0)
      && (next.0.Failed? || next.0.Hung? ==> !outcome.Completed?)
  {
  }

  /** A graph the optimizer crashed on is skipped: nothing is recorded and the next graph follows. */
  lemma CrashedGraphIsSkipped(graphs: seq<(nat, Corpus.Entry)>, k: nat, runs: seq<GraphStats>, parseInput: InputParser,
                              status: Option<int>, name: string, rest: seq<Message>, written: seq<seq<Corpus.byte>>)
    requires k < |graphs| && parseInput(Corpus.NewlinesToSpaces(graphs[k].1.contents)).Some?
    ensures RunFrom(graphs, k, runs, parseInput, [NoResponse(status), Start(name)] + rest, written)
      == RunFrom(graphs, k + 1, runs, parseInput, rest, written + [Corpus.NewlinesToSpaces(graphs[k].1.contents)])
  {
    var messages := [NoResponse(status), Start(name)] + rest;
    assert messages[1..] == [Start(name)] + rest;
    assert messages[1..][1..] == rest;
  }

  /** Any answer other than a graph or a crash ends the run with `InvalidData`. */
  lemma UnexpectedAnswerIsInvalidData(graphs: seq<(nat, Corpus.Entry)>, k: nat, runs: seq<GraphStats>, parseInput: InputParser,
                                      m: Message, rest: seq<Message>, written: seq<seq<Corpus.byte>>)
    requires k < |graphs| && parseInput(Corpus.NewlinesToSpaces(graphs[k].1.contents)).Some?
    requires m.Start? || m.Done?
    ensures RunFrom(graphs, k, runs, parseInput, [m] + rest, written).0 == Panicked(InvalidData(m))
  {
    assert ([m] + rest)[0] == m;
  }
}
