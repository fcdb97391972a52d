/** `src/comparer/compare_mode.rs`: two optimizers play rounds on random instances until the SPRT decides. */
module CompareMode {
  import opened Wrappers
  import opened Session
  import Geometry
  import Crossings

  // ---------------------------------------------------------------------------
  // The generated instance

  /** A coordinate drawn by `rng.gen_range(0..1000)`. */
  type Coordinate = x: int | 0 <= x < 1000

  /** The random part of an instance: the node coordinates and the G(n, p) edges as index pairs. */
  datatype Draw = Draw(coordinates: seq<(Coordinate, Coordinate)>, edges: seq<(nat, nat)>)

  /** The instance built from a draw: node i has id i, no points, a 1_000_000 square canvas. */
  function MakeInstance(d: Draw): (g: Geometry.Graph)
    ensures |g.nodes| == |d.coordinates| && |g.edges| == |d.edges|
    ensures forall i :: 0 <= i < |g.nodes| ==>
      g.nodes[i].id == i && g.nodes[i].x < 1000 && g.nodes[i].y < 1000
    ensures g.points == [] && g.width == 1_000_000 && g.height == 1_000_000
    ensures forall i :: 0 <= i < |g.edges| ==> g.edges[i] == Geometry.Edge(d.edges[i].0, d.edges[i].1)
  {
    Geometry.Graph(
      seq(|d.coordinates|, i requires 0 <= i < |d.coordinates| =>
        Geometry.Node(i, d.coordinates[i].0, d.coordinates[i].1)),
      [],
      seq(|d.edges|, i requires 0 <= i < |d.edges| => Geometry.Edge(d.edges[i].0, d.edges[i].1)),
      1_000_000, 1_000_000)
  }

  /** Every node of an instance lies inside its canvas. */
  lemma InstanceNodesInsideCanvas(d: Draw)
    ensures forall n :: n in MakeInstance(d).nodes ==>
      n.x <= MakeInstance(d).width && n.y <= MakeInstance(d).height
  {
    var g := MakeInstance(d);
    forall n | n in g.nodes
      ensures n.x <= g.width && n.y <= g.height
    {
      var i :| 0 <= i < |g.nodes| && g.nodes[i] == n;
    }
  }

  // ---------------------------------------------------------------------------
  // Scoring and the stopping rule

  /** `SPRTResult`. */
  datatype Verdict = AcceptH1 | AcceptH0 | Continue

  /** `SPRT::status`: the verdict for a log-likelihood ratio against the two bounds, upper bound first. */
  function Status(llr: real, lower: real, upper: real): (v: Verdict)
    ensures v == AcceptH1 <==> llr >= upper
    ensures v == AcceptH0 <==> llr < upper && llr <= lower
    ensures v == Continue <==> lower < llr < upper
  {
    if llr >= upper then AcceptH1
    else if llr <= lower then AcceptH0
    else Continue
  }

  /** The three counters `wins`, `draws` and `losses`, from optimizer 1's point of view. */
  datatype Tally = Tally(wins: nat, draws: nat, losses: nat)
  {
    function Rounds(): nat
    {
      wins + draws + losses
    }

    predicate AtMost(other: Tally)
    {
      wins <= other.wins && draws <= other.draws && losses <= other.losses
    }
  }

  /** One round's score: fewer crossings on the worst edge wins. */
  function Score(t: Tally, crossings1: nat, crossings2: nat): (r: Tally)
    ensures r.Rounds() == t.Rounds() + 1 && t.AtMost(r)
    ensures r.wins == t.wins + 1 <==> crossings1 < crossings2
    ensures r.draws == t.draws + 1 <==> crossings1 == crossings2
    ensures r.losses == t.losses + 1 <==> crossings1 > crossings2
  {
    if crossings1 < crossings2 then t.(wins := t.wins + 1)
    else if crossings1 == crossings2 then t.(draws := t.draws + 1)
    else t.(losses := t.losses + 1)
  }

  /** Scoring is antisymmetric: swapping the two optimizers swaps wins and losses. */
  lemma ScoreSwapped(t: Tally, crossings1: nat, crossings2: nat)
    ensures var r := Score(Tally(t.losses, t.draws, t.wins), crossings2, crossings1);
            r == Tally(Score(t, crossings1, crossings2).losses, Score(t, crossings1, crossings2).draws,
                       Score(t, crossings1, crossings2).wins)
  {
  }

  // ---------------------------------------------------------------------------
  // `read_final_response`

  /** Why a comparison panics; `optimizer` is 1 or 2. */
  datatype Fatal =
    | DoneWithoutGraph(optimizer: nat)
    | UnexpectedMessage(optimizer: nat, message: Message)
    | EndpointOutOfRange(optimizer: nat)

  /** The graph `read_final_response` settles on, `last` being the one kept so far, and the messages left. */
  function FinalGraph(messages: seq<Message>, optimizer: nat, last: Option<Geometry.Graph>)
    : (r: (Outcome<Geometry.Graph, Fatal>, seq<Message>))
    ensures |r.1| <= |messages|
    decreases |messages|
  {
    if messages == [] then (Stuck, [])
    else match messages[0]
      case GraphResult(g) => FinalGraph(messages[1..], optimizer, Some(g))
      case Done =>
        if last.None? then (Panicked(DoneWithoutGraph(optimizer)), messages[1..])
        else (Completed(last.value), messages[1..])
      case other => (Panicked(UnexpectedMessage(optimizer, other)), messages[1..])
  }

  /** All of the first `k` messages are graphs. */
  predicate GraphsBefore(messages: seq<Message>, k: nat)
  {
    k <= |messages| && forall j :: 0 <= j < k ==> messages[j].GraphResult?
  }

  /**
   * `read_final_response` completes exactly when some graphs are followed by `Done`, and then
   * returns the last of them and leaves what follows the `Done`.
   */
  lemma FinalGraphIsLastBeforeDone(messages: seq<Message>, optimizer: nat, last: Option<Geometry.Graph>)
    ensures FinalGraph(messages, optimizer, last).0.Completed? <==>
      exists k :: 0 <= k < |messages| && messages[k] == Done && GraphsBefore(messages, k) && (k > 0 || last.Some?)
    ensures forall k :: 0 <= k < |messages| && messages[k] == Done && GraphsBefore(messages, k) ==>
      FinalGraph(messages, optimizer, last) == FinalAt(messages, optimizer, last, k)
  {
    FinalGraphCompletesOnlyAtDone(messages, optimizer, last);
    forall k | 0 <= k < |messages| && messages[k] == Done && GraphsBefore(messages, k)
      ensures FinalGraph(messages, optimizer, last) == FinalAt(messages, optimizer, last, k)
    {
      FinalGraphAtDone(messages, optimizer, last, k);
    }
  }

  /** What the read settles on when message k is the first `Done`: the graph before it, else `last`. */
  function FinalAt(messages: seq<Message>, optimizer: nat, last: Option<Geometry.Graph>, k: nat)
    : (Outcome<Geometry.Graph, Fatal>, seq<Message>)
    requires k < |messages| && GraphsBefore(messages, k)
  {
    if k > 0 then (Completed(messages[k - 1].graph), messages[k + 1..])
    else if last.Some? then (Completed(last.value), messages[1..])
    else (Panicked(DoneWithoutGraph(optimizer)), messages[1..])
  }

  lemma {:induction false} FinalGraphAtDone(messages: seq<Message>, optimizer: nat, last: Option<Geometry.Graph>, k: nat)
    requires k < |messages| && messages[k] == Done && GraphsBefore(messages, k)
    ensures FinalGraph(messages, optimizer, last) == FinalAt(messages, optimizer, last, k)
    decreases k
  {
    if k > 0 {
      var tail := messages[1..];
      assert messages[0].GraphResult?;
      assert GraphsBefore(tail, k - 1) by {
        forall j | 0 <= j < k - 1
          ensures tail[j].GraphResult?
        {
          assert tail[j] == messages[j + 1];
        }
      }
      FinalGraphAtDone(tail, optimizer, Some(messages[0].graph), k - 1);
      assert tail[k..] == messages[k + 1..];
      if k > 1 {
        assert tail[k - 2] == messages[k - 1];
      }
    }
  }

  lemma {:induction false} FinalGraphCompletesOnlyAtDone(messages: seq<Message>, optimizer: nat, last: Option<Geometry.Graph>)
    ensures FinalGraph(messages, optimizer, last).0.Completed? ==>
      exists k :: 0 <= k < |messages| && messages[k] == Done && GraphsBefore(messages, k) && (k > 0 || last.Some?)
    decreases |messages|
  {
    if messages != [] && messages[0].GraphResult? {
      var tail := messages[1..];
      FinalGraphCompletesOnlyAtDone(tail, optimizer, Some(messages[0].graph));
      if FinalGraph(messages, optimizer, last).0.Completed? {
        var k :| 0 <= k < |tail| && tail[k] == Done && GraphsBefore(tail, k);
        assert GraphsBefore(messages, k + 1) by {
          forall j | 0 < j < k + 1
            ensures messages[j].GraphResult?
          {
            assert messages[j] == tail[j - 1];
          }
        }
        assert messages[k + 1] == Done;
      }
    } else if messages != [] && messages[0] == Done && last.Some? {
      assert GraphsBefore(messages, 0);
    }
  }

  /** `read_final_response`: the first response must be a graph, later graphs replace it, `Done` ends. */
  method ReadFinalResponse(optimizer: Channel, index: nat) returns (r: Outcome<Geometry.Graph, Fatal>)
    modifies optimizer
    ensures (r, optimizer.pending) == FinalGraph(old(optimizer.pending), index, None)
    ensures optimizer.written == old(optimizer.written)
  {
    var first := optimizer.Receive();
    if first.None? {
      return Stuck;
    }
    var graph;
    match first.value {
      case GraphResult(g) => graph := g;
      case Done => return Panicked(DoneWithoutGraph(index));
      case other => return Panicked(UnexpectedMessage(index, other));
    }
    while true
      invariant FinalGraph(optimizer.pending, index, Some(graph)) == FinalGraph(old(optimizer.pending), index, None)
      invariant optimizer.written == old(optimizer.written)
      decreases |optimizer.pending|
    {
      var next := optimizer.Receive();
      if next.None? {
        return Stuck;
      }
      match next.value {
        case GraphResult(g) => graph := g;
        case Done => break;
        case other => return Panicked(UnexpectedMessage(index, other));
      }
    }
    return Completed(graph);
  }

  // ---------------------------------------------------------------------------
  // The round loop

  /**
   * What the loop is given: the round budget, the SPRT bounds and log-likelihood ratio (the
   * floating-point statistics are outside the model), the seeded random draws, and the JSON encoder.
   */
  datatype Config = Config(
    maxGames: nat,
    lower: real,
    upper: real,
    llr: Tally -> real,
    draw: nat -> Draw,
    serialize: Geometry.Graph -> seq<byte>)

  /** How the loop ended: the counters and `current_instance`. */
  datatype Standing = Standing(tally: Tally, current: nat)

  /** The line written to both optimizers in round `i`. */
  function Request(cfg: Config, i: nat): seq<byte>
  {
    cfg.serialize(MakeInstance(cfg.draw(i)))
  }

  /** The requests of the first `n` rounds, as each optimizer receives them. */
  function Requests(cfg: Config, n: nat): (r: seq<seq<byte>>)
    ensures |r| == n
    ensures forall i :: 0 <= i < n ==> r[i] == Request(cfg, i)
  {
    seq(n, i requires 0 <= i < n => Request(cfg, i))
  }

  lemma RequestsGrow(cfg: Config, n: nat)
    ensures Requests(cfg, n) + [Request(cfg, n)] == Requests(cfg, n + 1)
  {
  }

  /** Where a round leaves the loop: on to the next round with new counters, or out of it. */
  datatype Step = Advance(tally: Tally) | Finish(outcome: Outcome<Standing, Fatal>)

  /**
   * One round after its instance is written, on the two message streams: both final graphs
   * (optimizer 1 first; `crossings` panics on an out-of-range endpoint), the score, the verdict.
   */
  function RoundStep(cfg: Config, current: nat, t: Tally, m1: seq<Message>, m2: seq<Message>)
    : (r: (Step, seq<Message>, seq<Message>))
    ensures |r.1| <= |m1| && |r.2| <= |m2|
    ensures r.0.Advance? ==> r.0.tally.Rounds() == t.Rounds() + 1
    ensures r.0.Finish? && r.0.outcome.Completed? ==>
      r.0.outcome.value.tally.Rounds() == t.Rounds() + 1 && r.0.outcome.value.current == current
  {
    var (r1, rest1) := FinalGraph(m1, 1, None);
    if r1.Stuck? then (Finish(Stuck), rest1, m2)
    else if r1.Panicked? then (Finish(Panicked(r1.reason)), rest1, m2)
    else
      var (r2, rest2) := FinalGraph(m2, 2, None);
      if r2.Stuck? then (Finish(Stuck), rest1, rest2)
      else if r2.Panicked? then (Finish(Panicked(r2.reason)), rest1, rest2)
      else if !Crossings.EndpointsInRange(r1.value) then (Finish(Panicked(EndpointOutOfRange(1))), rest1, rest2)
      else if !Crossings.EndpointsInRange(r2.value) then (Finish(Panicked(EndpointOutOfRange(2))), rest1, rest2)
      else
        var next := Score(t, Crossings.MaxPerEdge(r1.value), Crossings.MaxPerEdge(r2.value));
        if Status(cfg.llr(next), cfg.lower, cfg.upper) != Continue then
          (Finish(Completed(Standing(next, current))), rest1, rest2)
        else (Advance(next), rest1, rest2)
  }

  /**
   * The loop from round `current` with counters `t` on the two message streams: the outcome,
   * the messages left on each side, and the number of rounds whose instance was written.
   */
  function Play(cfg: Config, current: nat, t: Tally, m1: seq<Message>, m2: seq<Message>)
    : (r: (Outcome<Standing, Fatal>, seq<Message>, seq<Message>, nat))
    ensures current <= r.3
    ensures |r.1| <= |m1| && |r.2| <= |m2|
    decreases cfg.maxGames - current
  {
    if current >= cfg.maxGames then (Completed(Standing(t, current)), m1, m2, current)
    else
      var (step, rest1, rest2) := RoundStep(cfg, current, t, m1, m2);
      match step
      case Finish(outcome) => (outcome, rest1, rest2, current + 1)
      case Advance(next) => Play(cfg, current + 1, next, rest1, rest2)
  }

  /** The body of the `while` loop: write the instance to both, read, score, consult the SPRT. */
  method PlayOneRound(cfg: Config, currentInstance: nat, wins: nat, draws: nat, losses: nat,
                      optimizer1: Channel, optimizer2: Channel) returns (step: Step)
    requires optimizer1 != optimizer2
    modifies optimizer1, optimizer2
    ensures (step, optimizer1.pending, optimizer2.pending)
      == RoundStep(cfg, currentInstance, Tally(wins, draws, losses), old(optimizer1.pending), old(optimizer2.pending))
    ensures optimizer1.written == old(optimizer1.written) + [Request(cfg, currentInstance)]
    ensures optimizer2.written == old(optimizer2.written) + [Request(cfg, currentInstance)]
  {
    var graph := MakeInstance(cfg.draw(currentInstance));
    optimizer1.Send(cfg.serialize(graph));
    optimizer2.Send(cfg.serialize(graph));

    var graph1 := ReadFinalResponse(optimizer1, 1);
    if !graph1.Completed? {
      return Finish(if graph1.Stuck? then Stuck else Panicked(graph1.reason));
    }
    var graph2 := ReadFinalResponse(optimizer2, 2);
    if !graph2.Completed? {
      return Finish(if graph2.Stuck? then Stuck else Panicked(graph2.reason));
    }

    if !Crossings.EndpointsInRange(graph1.value) {
      return Finish(Panicked(EndpointOutOfRange(1)));
    }
    if !Crossings.EndpointsInRange(graph2.value) {
      return Finish(Panicked(EndpointOutOfRange(2)));
    }
    var crossings1 := Crossings.CountCrossings(graph1.value);
    var crossings2 := Crossings.CountCrossings(graph2.value);

    var wins, draws, losses := wins, draws, losses;
    if crossings1.maxPerEdge < crossings2.maxPerEdge {
      wins := wins + 1;
    } else if crossings1.maxPerEdge == crossings2.maxPerEdge {
      draws := draws + 1;
    } else {
      losses := losses + 1;
    }

    var status := Status(cfg.llr(Tally(wins, draws, losses)), cfg.lower, cfg.upper);
    if status != Continue {
      return Finish(Completed(Standing(Tally(wins, draws, losses), currentInstance)));
    }
    return Advance(Tally(wins, draws, losses));
  }

  /** The loop of `compare_mode`, up to `max_games` rounds. */
  method Compare(cfg: Config, optimizer1: Channel, optimizer2: Channel) returns (r: Outcome<Standing, Fatal>)
    requires optimizer1 != optimizer2
    modifies optimizer1, optimizer2
    ensures r == Play(cfg, 0, Tally(0, 0, 0), old(optimizer1.pending), old(optimizer2.pending)).0
    ensures optimizer1.pending == Play(cfg, 0, Tally(0, 0, 0), old(optimizer1.pending), old(optimizer2.pending)).1
    ensures optimizer2.pending == Play(cfg, 0, Tally(0, 0, 0), old(optimizer1.pending), old(optimizer2.pending)).2
    ensures optimizer1.written == old(optimizer1.written)
      + Requests(cfg, Play(cfg, 0, Tally(0, 0, 0), old(optimizer1.pending), old(optimizer2.pending)).3)
    ensures optimizer2.written == old(optimizer2.written)
      + Requests(cfg, Play(cfg, 0, Tally(0, 0, 0), old(optimizer1.pending), old(optimizer2.pending)).3)
  {
    ghost var spec := Play(cfg, 0, Tally(0, 0, 0), optimizer1.pending, optimizer2.pending);
    ghost var written1, written2 := optimizer1.written, optimizer2.written;
    var wins, draws, losses := 0, 0, 0;
    var currentInstance := 0;
    while currentInstance < cfg.maxGames
      invariant Play(cfg, currentInstance, Tally(wins, draws, losses), optimizer1.pending, optimizer2.pending) == spec
      invariant optimizer1.written == written1 + Requests(cfg, currentInstance)
      invariant optimizer2.written == written2 + Requests(cfg, currentInstance)
      decreases cfg.maxGames - currentInstance
    {
      var step := PlayOneRound(cfg, currentInstance, wins, draws, losses, optimizer1, optimizer2);
      RequestsGrow(cfg, currentInstance);
      if step.Finish? {
        return step.outcome;
      }
      wins, draws, losses := step.tally.wins, step.tally.draws, step.tally.losses;
      currentInstance := currentInstance + 1;
    }
    return Completed(Standing(Tally(wins, draws, losses), currentInstance));
  }

  /**
   * How a completed comparison ended: either the budget ran out and every round was counted
   * with `current_instance` at the budget, or a decisive verdict stopped it one round after
   * `current_instance` and within the budget. Counters only grow.
   */
  lemma {:induction false} PlayStandings(cfg: Config, current: nat, t: Tally, m1: seq<Message>, m2: seq<Message>)
    requires current <= cfg.maxGames && t.Rounds() == current
    ensures var outcome := Play(cfg, current, t, m1, m2).0;
      outcome.Completed? ==>
        var s := outcome.value;
        t.AtMost(s.tally) && s.current <= cfg.maxGames
        && ((s.current == cfg.maxGames && s.tally.Rounds() == s.current)
            || (s.current < cfg.maxGames && s.tally.Rounds() == s.current + 1
                && Status(cfg.llr(s.tally), cfg.lower, cfg.upper) != Continue))
    decreases cfg.maxGames - current
  {
    if current < cfg.maxGames {
      var (step, rest1, rest2) := RoundStep(cfg, current, t, m1, m2);
      if step.Advance? {
        PlayStandings(cfg, current + 1, step.tally, rest1, rest2);
      }
    }
  }

  /**
   * A comparison that starts from zero never plays more than `max_games` rounds, and, however
   * it ends, never writes more than `max_games` instances to either optimizer.
   */
  lemma AtMostMaxGames(cfg: Config, m1: seq<Message>, m2: seq<Message>)
    ensures Play(cfg, 0, Tally(0, 0, 0), m1, m2).0.Completed? ==>
      Play(cfg, 0, Tally(0, 0, 0), m1, m2).0.value.tally.Rounds() <= cfg.maxGames
    ensures Play(cfg, 0, Tally(0, 0, 0), m1, m2).3 <= cfg.maxGames
  {
    RoundsWithinBudget(cfg, 0, Tally(0, 0, 0), m1, m2);
    InstancesWithinBudget(cfg, 0, Tally(0, 0, 0), m1, m2);
  }

  lemma {:induction false} RoundsWithinBudget(cfg: Config, current: nat, t: Tally, m1: seq<Message>, m2: seq<Message>)
    requires current <= cfg.maxGames && t.Rounds() == current
    ensures Play(cfg, current, t, m1, m2).0.Completed? ==>
      Play(cfg, current, t, m1, m2).0.value.tally.Rounds() <= cfg.maxGames
    decreases cfg.maxGames - current
  {
    if current < cfg.maxGames {
      var next := RoundStep(cfg, current, t, m1, m2);
      if next.0.Advance? {
        RoundsWithinBudget(cfg, current + 1, next.0.tally, next.1, next.2);
      }
    }
  }

  lemma {:induction false} InstancesWithinBudget(cfg: Config, current: nat, t: Tally, m1: seq<Message>, m2: seq<Message>)
    requires current <= cfg.maxGames
    ensures Play(cfg, current, t, m1, m2).3 <= cfg.maxGames
    decreases cfg.maxGames - current
  {
    if current < cfg.maxGames {
      var next := RoundStep(cfg, current, t, m1, m2);
      if next.0.Advance? {
        InstancesWithinBudget(cfg, current + 1, next.0.tally, next.1, next.2);
      }
    }
  }
}
