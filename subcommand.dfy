/** `leaderboard_mode` of `src/leaderboard/subcommand.rs`: every answer for every graph, timed and scored. */
module Subcommand {
  import opened Wrappers
  import opened Session
  import Geometry
  import Crossings
  import Corpus
  import opened RunStatistics

  /** Why a leaderboard run ends early. */
  datatype Fault =
    | EndpointOutOfRange(name: string)   // panic inside `crossings`
    | UnexpectedMessage(got: Message)    // neither a graph nor `Done`

  /** `start_time.elapsed()` for the `j`-th answer to the `k`-th graph, outside the model. */
  type Clock = (nat, nat) -> nat

  /** The inner loop for graph `k` named `name`: answers until `Done`, each scored and timed. */
  function Answers(messages: seq<Message>, k: nat, name: string, acc: seq<CrossingStatistic>, elapsed: Clock)
    : (r: (Outcome<seq<CrossingStatistic>, Fault>, seq<Message>))
    ensures |r.1| <= |messages|
    ensures r.0.Completed? ==> |r.1| < |messages| && |acc| <= |r.0.value| && r.0.value[..|acc|] == acc
    decreases |messages|
  {
    if messages == [] then (Stuck, [])
    else match messages[0]
      case GraphResult(g) =>
        if !Crossings.EndpointsInRange(g) then (Panicked(EndpointOutOfRange(name)), messages[1..])
        else
          var r := Answers(messages[1..], k, name, acc + [CrossingStatistic(Crossings.MaxPerEdge(g), elapsed(k, |acc|))], elapsed);
          assert r.0.Completed? ==> r.0.value[..|acc|] == (r.0.value[..|acc| + 1])[..|acc|];
          r
      case Done => (Completed(acc), messages[1..])
      case other => (Panicked(UnexpectedMessage(other)), messages[1..])
  }

  /** The outer loop from the `k`-th graph, with the entries `done` so far. */
  function LeaderboardFrom(graphs: seq<Corpus.Entry>, k: nat, done: seq<GraphStatistics>, elapsed: Clock,
                           messages: seq<Message>, written: seq<seq<Corpus.byte>>)
    : (r: (Outcome<seq<GraphStatistics>, Fault>, seq<Message>, seq<seq<Corpus.byte>>))
    requires k <= |graphs|
    ensures |r.1| <= |messages|
    ensures written <= r.2 && |r.2| <= |written| + |graphs| - k
    decreases |graphs| - k
  {
    if k == |graphs| then (Completed(done), messages, written)
    else
      var bytes := Corpus.NewlinesToSpaces(graphs[k].contents);
      var (answers, rest) := Answers(messages, k, graphs[k].name, [], elapsed);
      if answers.Stuck? then (Stuck, rest, written + [bytes])
      else if answers.Panicked? then (Panicked(answers.reason), rest, written + [bytes])
      else LeaderboardFrom(graphs, k + 1, done + [GraphStatistics(graphs[k].name, answers.value)], elapsed, rest, written + [bytes])
  }

  /** What `leaderboard_mode` returns, with the messages left and the requests written. */
  function LeaderboardSpec(graphs: seq<Corpus.Entry>, filter: Option<string>, now: nat, elapsed: Clock,
                           messages: seq<Message>, written: seq<seq<Corpus.byte>>)
    : (Outcome<RunRecord, Fault>, seq<Message>, seq<seq<Corpus.byte>>)
  {
    var selected := Corpus.FilterGraphs(graphs, filter);
    var (outcome, rest, written') := LeaderboardFrom(selected, 0, [], elapsed, messages, written);
    if outcome.Stuck? then (Stuck, rest, written')
    else if outcome.Panicked? then (Panicked(outcome.reason), rest, written')
    else (Completed(RunRecord(now, outcome.value)), rest, written')
  }

  /** The `loop` over the answers to graph `k`, pushing onto the entry at `index`. */
  method CollectAnswers(run: SingleRun, index: nat, k: nat, name: string, elapsed: Clock, optimizer: Channel)
    returns (r: Outcome<(), Fault>)
    requires index < |run.graphs| && run.graphs[index].crossings == []
    modifies run, optimizer
    ensures |run.graphs| == |old(run.graphs)| && run.unixSeconds == old(run.unixSeconds)
    ensures optimizer.written == old(optimizer.written)
    ensures var (spec, rest) := Answers(old(optimizer.pending), k, name, [], elapsed);
      optimizer.pending == rest
      && (spec.Stuck? ==> r.Stuck?)
      && (spec.Panicked? ==> r == Panicked(spec.reason))
      && (spec.Completed? ==> r.Completed? && run.graphs == old(run.graphs)[index := old(run.graphs)[index].(crossings := spec.value)])
  {
    while true
      invariant |run.graphs| == |old(run.graphs)| && run.unixSeconds == old(run.unixSeconds)
      invariant optimizer.written == old(optimizer.written)
      invariant run.graphs == old(run.graphs)[index := old(run.graphs)[index].(crossings := run.graphs[index].crossings)]
      invariant Answers(optimizer.pending, k, name, run.graphs[index].crossings, elapsed)
        == Answers(old(optimizer.pending), k, name, [], elapsed)
      decreases |optimizer.pending|
    {
      var response := optimizer.Receive();
      if response.None? {
        return Stuck;
      }
      match response.value {
        case GraphResult(graph) =>
          if !Crossings.EndpointsInRange(graph) {
            return Panicked(EndpointOutOfRange(name));
          }
          var numEdgeCrossings := Crossings.CountCrossings(graph);
          var duration := elapsed(k, |run.graphs[index].crossings|);
          run.PushCrossing(index, CrossingStatistic(numEdgeCrossings.maxPerEdge, duration));
        case Done =>
          return Completed(());
        case other =>
          return Panicked(UnexpectedMessage(other));
      }
    }
  }

  /** `leaderboard_mode`, `now` being the system time in seconds. */
  method LeaderboardMode(graphs: seq<Corpus.Entry>, filter: Option<string>, now: nat, elapsed: Clock, optimizer: Channel)
    returns (r: Outcome<RunRecord, Fault>)
    modifies optimizer
    ensures (r, optimizer.pending, optimizer.written)
      == LeaderboardSpec(graphs, filter, now, elapsed, old(optimizer.pending), old(optimizer.written))
    ensures Corpus.FilterGraphs(graphs, filter) == [] ==> r == Completed(RunRecord(now, [])) && unchanged(optimizer)
  {
    var selected := Corpus.FilterGraphs(graphs, filter);
    if selected == [] {
      return Completed(RunRecord(now, []));
    }
    var run := new SingleRun(now);
    for k := 0 to |selected|
      invariant run.unixSeconds == now
      invariant LeaderboardFrom(selected, k, run.graphs, elapsed, optimizer.pending, optimizer.written)
        == LeaderboardFrom(selected, 0, [], elapsed, old(optimizer.pending), old(optimizer.written))
    {
      ghost var done := run.graphs;
      var index := run.NewGraph(selected[k].name);
      var graph := Corpus.NewlinesToSpaces(selected[k].contents);
      optimizer.Send(graph);
      var answered := CollectAnswers(run, index, k, selected[k].name, elapsed, optimizer);
      if answered.Stuck? {
        return Stuck;
      } else if answered.Panicked? {
        return Panicked(answered.reason);
      }
      assert run.graphs == done + [GraphStatistics(selected[k].name, run.graphs[index].crossings)];
    }
    return Completed(run.Record());
  }

  // ---------------------------------------------------------------------------
  // What the run holds

  /** A completed run has one entry per selected graph, in order, each named after its graph. */
  lemma {:induction false} OneEntryPerGraph(graphs: seq<Corpus.Entry>, k: nat, done: seq<GraphStatistics>, elapsed: Clock,
                                            messages: seq<Message>, written: seq<seq<Corpus.byte>>)
    requires k <= |graphs| && |done| == k
    ensures var outcome := LeaderboardFrom(graphs, k, done, elapsed, messages, written).0;
      outcome.Completed? ==>
        |outcome.value| == |graphs| && outcome.value[..k] == done
        && forall i :: k <= i < |graphs| ==> outcome.value[i].graph == graphs[i].name
    decreases |graphs| - k
  {
    if k < |graphs| {
      var (answers, rest) := Answers(messages, k, graphs[k].name, [], elapsed);
      if answers.Completed? {
        var done' := done + [GraphStatistics(graphs[k].name, answers.value)];
        var bytes := Corpus.NewlinesToSpaces(graphs[k].contents);
        OneEntryPerGraph(graphs, k + 1, done', elapsed, rest, written + [bytes]);
        var outcome := LeaderboardFrom(graphs, k + 1, done', elapsed, rest, written + [bytes]).0;
        if outcome.Completed? {
          assert outcome.value[..k] == outcome.value[..k + 1][..k];
          assert outcome.value[k] == outcome.value[..k + 1][k] == done'[k];
        }
      }
    }
  }

  /** The graphs an optimizer sends for one request, scored in arrival order, until its `DONE`. */
  function Scores(answers: seq<Geometry.Graph>, k: nat, from: nat, elapsed: Clock): seq<CrossingStatistic>
    requires forall i :: 0 <= i < |answers| ==> Crossings.EndpointsInRange(answers[i])
  {
    seq(|answers|, i requires 0 <= i < |answers| => CrossingStatistic(Crossings.MaxPerEdge(answers[i]), elapsed(k, from + i)))
  }

  function AsMessages(answers: seq<Geometry.Graph>): (r: seq<Message>)
    ensures |r| == |answers| && forall i :: 0 <= i < |r| ==> r[i] == GraphResult(answers[i])
  {
    seq(|answers|, i requires 0 <= i < |answers| => GraphResult(answers[i]))
  }

  /** Each answer before `Done` becomes one crossing statistic, in arrival order; `Done` ends the graph. */
  lemma {:induction false} AnswersInArrivalOrder(answers: seq<Geometry.Graph>, rest: seq<Message>, k: nat, name: string,
                                                 acc: seq<CrossingStatistic>, elapsed: Clock)
    requires forall i :: 0 <= i < |answers| ==> Crossings.EndpointsInRange(answers[i])
    ensures Answers(AsMessages(answers) + [Done] + rest, k, name, acc, elapsed)
      == (Completed(acc + Scores(answers, k, |acc|, elapsed)), rest)
    decreases |answers|
  {
    var messages := AsMessages(answers) + [Done] + rest;
    if answers == [] {
      assert AsMessages(answers) == [];
      assert messages == [Done] + rest;
      assert messages[0] == Done;
      assert messages[1..] == rest;
      assert acc + Scores(answers, k, |acc|, elapsed) == acc;
    } else {
      var first := CrossingStatistic(Crossings.MaxPerEdge(answers[0]), elapsed(k, |acc|));
      MessagesCons(answers, rest);
      AnswersInArrivalOrder(answers[1..], rest, k, name, acc + [first], elapsed);
      ScoresCons(answers, k, |acc|, elapsed);
      assert acc + [first] + Scores(answers[1..], k, |acc| + 1, elapsed) == acc + Scores(answers, k, |acc|, elapsed);
    }
  }

  lemma MessagesCons(answers: seq<Geometry.Graph>, rest: seq<Message>)
    requires answers != []
    ensures var messages := AsMessages(answers) + [Done] + rest;
      messages[0] == GraphResult(answers[0]) && messages[1..] == AsMessages(answers[1..]) + [Done] + rest
  {
    var messages := AsMessages(answers) + [Done] + rest;
    assert messages[1..] == AsMessages(answers[1..]) + [Done] + rest;
  }

  lemma ScoresCons(answers: seq<Geometry.Graph>, k: nat, from: nat, elapsed: Clock)
    requires answers != []
    requires forall i :: 0 <= i < |answers| ==> Crossings.EndpointsInRange(answers[i])
    ensures Scores(answers, k, from, elapsed)
      == [CrossingStatistic(Crossings.MaxPerEdge(answers[0]), elapsed(k, from))] + Scores(answers[1..], k, from + 1, elapsed)
  {
    var whole, tail := Scores(answers, k, from, elapsed), Scores(answers[1..], k, from + 1, elapsed);
    forall i | 0 <= i < |tail|
      ensures whole[i + 1] == tail[i]
    {
      assert answers[1..][i] == answers[i + 1];
    }
  }
}
