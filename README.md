# gda-testing, modelled in Dafny

gda-testing is a test harness for graph-drawing optimizers. An optimizer is a child process. The harness writes a graph to its standard input as one line of JSON. The optimizer answers with drawings of that graph. The harness scores each drawing by `max_per_edge`. For each edge, it counts the later edges, in edge order, that cross it (the edge's forward count), and `max_per_edge` is the largest of these counts.

This project models the scoring kernel and the three drivers built on it:

- the drawing model and its integer geometry (`minmax`, `is_between`, `ccw`, `is_collinear`, `is_crossing`), the O(E²) crossing counter `Graph::crossings` and the validator `Graph::is_valid`;
- the line protocol with one optimizer (`read_response`, `read_start`, `read_graphs`, `write_graph`, `all_ok`);
- compare mode: two optimizers play rounds on random instances until a sequential probability ratio test (SPRT) stops them or the round budget runs out;
- graphs mode: every corpus graph is sent to one optimizer, each answer is scored, and graphs the optimizer crashed on are skipped;
- leaderboard mode: every answer for every graph is timed and scored, a run is merged into its statistics file, and the table behind the leaderboard chart is built.

Modules, one per component:

| module | file | models |
|---|---|---|
| `Wrappers` | wrappers.dfy | `Option`, `Result`, and `Outcome` = `Completed` / `Panicked` / `Stuck` (a read that never completes) |
| `Text` | text.dfy | `trim_end`, `trim`, `trim_ascii`, `str::contains` |
| `Geometry` | geometry.dfy | `src/graph.rs` data model and orientation predicates |
| `Crossings` | crossings.dfy | `Graph::crossings` and what its two numbers mean |
| `Validation` | validation.dfy | `Graph::is_valid` and what its verdict means |
| `Protocol` | protocol.dfy | `src/optimizer_protocol.rs`: the `Optimizer` class over its two pipes, and the encoder side |
| `Session` | session.dfy | the optimizer as the three drivers see it: a stream of decoded messages and a log of requests |
| `CompareMode` | compare_mode.dfy | `src/comparer/compare_mode.rs` and the verdict of `SPRT::status` |
| `Corpus` | corpus.dfy | `filter_graphs`, the `skip_to` selection and the newline-to-space byte map |
| `GraphsRunner` | graphs_runner.dfy | `GraphsModeRunner::run` |
| `RunStatistics` | run_statistics.dfy | `src/leaderboard/run_statistics.rs` |
| `Subcommand` | subcommand.dfy | `leaderboard_mode` of `src/leaderboard/subcommand.rs` |
| `Plots` | plots.dfy | `get_graph_names`, `make_graph_ids`, `get_best_crossing_values` |

Each loop of the source is a `method` proved against a recursive specification function. The loop invariant says the function applied to the current state equals the function applied to the initial state. The properties the source promises are then lemmas about those functions.

One place where the model does not follow the code is the orientation test. `ccw` multiplies `u32` coordinates, and those products can overflow (the FIXME at `src/graph.rs:182`) once coordinates pass 37837. The model computes the exact orientation instead (`Geometry.Ccw`), and keeps the wrapping computation as written as `Geometry.CcwWrapping`. So the crossing counter, the validator, graphs mode's gate and compare mode's score are proved to agree with the source only while every coordinate is at most 37837 (`Geometry.CcwWrappingExactBelowBound`). Compare mode's canvas is 1,000,000 wide and its answers are never validated.

Everywhere else the model follows the code where the code and its design description differ:

- `is_valid` checks only `id < n` for node ids, so duplicate ids are accepted (`Validation.DuplicateIdsAccepted`).
- Compare mode never validates the drawings it scores.
- `max_per_edge` is the largest forward count, not the largest number of crossings on one edge. The inner loop of `Graph::crossings` skips the earlier edges, so each crossing is counted for the earlier of its two edges only. In `Crossings.MaxPerEdgeCountsForwardOnly` one edge crosses both others, yet the score is 1.
- The blank-line loop of `read_response` appends the next line to the same buffer. A blank line is therefore not skipped: it stays at the front of the next line, which then matches no keyword (`Protocol.BlankLineIsNotSkipped`).
- Graphs mode counts crossings before it validates. An answer with an edge endpoint outside the node list therefore panics the whole run instead of disqualifying one graph (`GraphsRunner.OutOfRangeAnswerPanicsInsteadOfDisqualifying`).
- The three drivers match on responses that `src/optimizer_protocol.rs` does not define: a tuple `Graph(g)`, `NoResponse(status)`, `read_graph_request`, `restart` and `take_stderr`. They are modelled against `Session.Message`. In that model `read_graph_request` consumes nothing, `restart` continues the same message stream, and the restarted optimizer's first message must be `START`.

## Model

| member | source | states |
|---|---|---|
| Geometry.MinMax | src/graph.rs:204-211 | the pair is in ascending order and holds exactly the two inputs |
| Geometry.IsBetween | src/graph.rs:174-179 | true exactly when q lies strictly between the endpoints on both axes; never true for a horizontal or vertical segment |
| Geometry.Ccw | src/graph.rs:181-184 | the comparison of the two sums is the sign of the cross product (q-p)×(r-p), in exact integers |
| Geometry.CcwWrapping | src/graph.rs:181-184 | `ccw` as written: both sums reduced modulo 2^32 before they are compared; `CcwWrappingExactBelowBound` and `CcwWrappingWrongOrientation` relate it to the exact orientation |
| Geometry.CcwWrappingExactBelowBound | src/graph.rs:181-184 | with every coordinate at most 37837, the u32 computation as written cannot overflow and agrees with the exact orientation |
| Geometry.CcwWrappingWrongOrientation | src/graph.rs:181-184 | on (0,0), (65536,1), (1,65536) the wrapping computation reports the opposite orientation of the exact one |
| Geometry.IsCollinear | src/graph.rs:186-188 | true exactly when the cross product is zero |
| Geometry.IsCrossing | src/graph.rs:190-202 | segments that share an endpoint never cross |
| Geometry.CcwSwap | src/graph.rs:181-184 | swapping the first two points reverses the orientation |
| Geometry.IsCrossingSymmetric | src/graph.rs:190-202 | the test does not depend on which segment comes first |
| Geometry.IsCrossingUndirected | src/graph.rs:190-202 | the test does not depend on the direction of either segment |
| Geometry.IsCrossingInGeneralPosition | src/graph.rs:190-202 | when no three points are collinear, as the doc comment assumes, two segments cross exactly when each one's endpoints lie strictly on opposite sides of the other |
| Crossings.Segments | src/graph.rs:59-71 | one segment per edge, with its endpoints' coordinates looked up by position in `nodes` |
| Crossings.Row | src/graph.rs:77-82 | the forward count of edge i: the number of later edges that cross it (`RowCountsLaterCrossings`) |
| Crossings.Total | src/graph.rs:73-86 | the value `total` should have: the forward counts summed over all edges (`TotalCountsCrossingPairs`) |
| Crossings.MaxRow | src/graph.rs:74-84 | the value `max_per_edge` should have: the largest forward count, 0 with no edges (`MaxRowIsLargestRow`) |
| Crossings.MaxPerEdge | src/graph.rs:58-92 | the score of a drawing whose endpoints are all in range: `max_per_edge` of its segments |
| Crossings.CountCrossings | src/graph.rs:58-92 | `total` is the sum and `max_per_edge` the maximum of the per-edge forward counts |
| Crossings.CountLaterCrossings | src/graph.rs:77-82 | the inner loop counts exactly the later edges that cross the current one |
| Crossings.TotalCountsCrossingPairs | src/graph.rs:76-86 | `total` is the number of unordered pairs of edges that cross |
| Crossings.RowCountsLaterCrossings | src/graph.rs:77-82 | an edge's forward count is the number of later edges that cross it |
| Crossings.MaxRowIsLargestRow | src/graph.rs:84 | `max_per_edge` bounds every forward count and equals one of them (0 with no edges) |
| Crossings.MaxRowAtMostTotal | src/graph.rs:84-85 | `max_per_edge` never exceeds `total` |
| Crossings.FewEdgesNoCrossings | src/graph.rs:76-86 | a graph with at most one edge has no crossing |
| Crossings.SquareDiagonalsCrossOnce | src/graph.rs:58-92 | the two diagonals of a square give `total` 1 and `max_per_edge` 1 |
| Crossings.SquareSidesDoNotCross | src/graph.rs:58-92 | the four sides of a square give `total` 0 |
| Crossings.MaxPerEdgeCountsForwardOnly | src/graph.rs:76-89 | a drawing whose last edge crosses both other edges still has `max_per_edge` 1, because only later edges are counted |
| Validation.NodeError | src/graph.rs:102-131 | the checks on node k in source order: id below n, x within the width, y within the height, position not taken by an earlier node |
| Validation.CollinearError | src/graph.rs:149-167 | the first node from k on that is not an endpoint (by id), lies strictly inside the edge's box and is collinear with it (`NoCollinearErrorFrom`) |
| Validation.EdgeError | src/graph.rs:133-168 | the checks on one edge in source order: source in range, target in range, then no node on it |
| Validation.Validate | src/graph.rs:94-171 | `is_valid`: the first node violation, otherwise the first edge violation, otherwise Ok; its meaning is given by `ValidateOkIffValidDrawing` and `ValidateReportsFirstViolation` |
| Validation.IsValid | src/graph.rs:94-171 | the method returns the first violation that the node checks, then the edge checks, find |
| Validation.CheckNodes | src/graph.rs:102-131 | the node loop returns the first node violation in node order, or none |
| Validation.CheckEdge | src/graph.rs:149-167 | the collinearity loop returns the error for the first node lying on the edge, or none |
| Validation.CoordinatesHoldEarlierNodes | src/graph.rs:123-130 | the coordinate map holds exactly the positions of the nodes inserted so far, each mapped to the id of a node at that position |
| Validation.NoNodeErrorFrom | src/graph.rs:102-131 | the node loop finds nothing exactly when no remaining node fails a check |
| Validation.NodeErrorsIffNodesWellFormed | src/graph.rs:102-131 | the nodes pass every check exactly when ids are below n, coordinates are inside the canvas, and positions are pairwise distinct |
| Validation.NoCollinearErrorFrom | src/graph.rs:149-167 | the inner loop finds nothing exactly when no node other than the edge's endpoints (by id) lies strictly inside the edge's box and on its line |
| Validation.NoEdgeErrorFrom | src/graph.rs:133-168 | the edge loop finds nothing exactly when every remaining edge has both endpoints in range and no node on it |
| Validation.ValidateOkIffValidDrawing | src/graph.rs:94-171 | `is_valid` returns Ok exactly for drawings that meet every node and edge condition |
| Validation.FirstNodeErrorIsFirst | src/graph.rs:102-131 | a reported node error comes from a node, and every node before it passed |
| Validation.FirstEdgeErrorIsFirst | src/graph.rs:133-168 | a reported edge error comes from an edge, and every edge before it passed |
| Validation.CollinearErrorIsEdgeKind | src/graph.rs:161-166 | the inner loop reports only collinearity errors |
| Validation.ValidateReportsFirstViolation | src/graph.rs:94-171 | a node error is the first node's violation; an edge error is reported only when all nodes are well formed, and it is the first edge's violation |
| Validation.NodeOnEdgeRejected | src/graph.rs:149-166 | a node at the middle of an edge is rejected as collinear; one unit off the line it is accepted |
| Validation.SharedCoordinatesRejected | src/graph.rs:123-128 | two nodes at one position are rejected, naming the earlier node first |
| Validation.DuplicateIdsAccepted | src/graph.rs:103-108 | two nodes with the same id at different positions are accepted |
| Protocol.StartsWith | src/optimizer_protocol.rs:157-163 | Some exactly when the text begins with the pattern, and then pattern followed by the result is the text |
| Protocol.FillLine | src/optimizer_protocol.rs:91-95 | a completed fill is not blank after `trim_end` and consumes at least one line when it starts blank |
| Protocol.FillLineReadsWholeLines | src/optimizer_protocol.rs:91-95 | the filled buffer is the old buffer followed by the lines consumed, and the rest is a suffix of the output; the buffer was blank before its last line; the fill never ends exactly when the buffer and all remaining lines are blank |
| Protocol.DecodeResponse | src/optimizer_protocol.rs:89-120 | a response never consumes more than the available output, and a completed one consumes at least one line |
| Protocol.Classify | src/optimizer_protocol.rs:97-119 | the trimmed line is tried as START, then GRAPH, then DONE, and anything else panics as an unknown response; the `DecodeEncoded` lemmas state its round trips |
| Protocol.ReadGraphLine | src/optimizer_protocol.rs:103-113 | after GRAPH, the next line is decoded as JSON; an undecodable line, or none at the end of the output, panics |
| Protocol.DecodeGraphs | src/optimizer_protocol.rs:135-153 | `read_graphs` on the output: never consumes more than there is, and a completed batch is not empty and extends the graphs collected before |
| Protocol.Optimizer.constructor | src/optimizer_protocol.rs:22-45 | a fresh optimizer has no input written and its whole output unread |
| Protocol.Optimizer.WriteGraphBytes | src/optimizer_protocol.rs:78-85 | the input grows by the bytes followed by exactly one newline |
| Protocol.Optimizer.WriteGraph | src/optimizer_protocol.rs:71-74 | the input grows by the encoded graph followed by exactly one newline |
| Protocol.Optimizer.ReadResponse | src/optimizer_protocol.rs:89-120 | the response and the output left are those of the decoding function |
| Protocol.Optimizer.ReadStart | src/optimizer_protocol.rs:123-132 | the name of a START response; any other response panics |
| Protocol.Optimizer.ReadGraphs | src/optimizer_protocol.rs:135-153 | the graphs up to DONE, in order; another response or no graph at all panics |
| Protocol.AllOk | src/optimizer_protocol.rs:182-190 | Ok with both values exactly when both are Ok; otherwise the first error in pair order |
| Protocol.DecodeEncoded | src/optimizer_protocol.rs:89-120 | decoding the lines an optimizer prints for a well-formed START, GRAPH or DONE response gives the response back and leaves the rest |
| Protocol.DecodeEncodedStart | src/optimizer_protocol.rs:99-102 | `START name` decodes to the name |
| Protocol.DecodeEncodedGraph | src/optimizer_protocol.rs:103-113 | `GRAPH text` with its JSON line decodes to the text and the parsed graph |
| Protocol.DecodeEncodedDone | src/optimizer_protocol.rs:114-115 | `DONE` decodes to Done |
| Protocol.DecodeEncodedBatch | src/optimizer_protocol.rs:135-153 | `read_graphs` returns the printed batch in order; an empty batch panics |
| Protocol.BlankLineIsNotSkipped | src/optimizer_protocol.rs:91-95 | a blank line before DONE yields an unknown-response panic, and a blank last line never completes |
| Protocol.BlankLineSpoilsNextLine | src/optimizer_protocol.rs:91-120 | for every line that is not blank: after a blank line it is read into the same buffer and ends in an unknown-response panic naming the newline-prefixed line |
| Session.Channel.Receive | src/optimizer_protocol.rs:89-120 | the next message is removed from the stream; at its end, nothing is removed and the read does not complete |
| Session.Channel.Send | src/optimizer_protocol.rs:78-85 | exactly one request is appended |
| CompareMode.MakeInstance | src/comparer/compare_mode.rs:50-70 | node i has id i and coordinates below 1000; the edges are the drawn pairs; no points; a 1,000,000 square canvas |
| CompareMode.InstanceNodesInsideCanvas | src/comparer/compare_mode.rs:50-70 | every generated node lies inside the canvas |
| CompareMode.Status | src/comparer/sprt.rs:49-55 | AcceptH1 exactly when llr ≥ upper; AcceptH0 exactly when llr < upper and llr ≤ lower; Continue exactly when strictly between |
| CompareMode.Score | src/comparer/compare_mode.rs:104-108 | exactly one counter grows by one: wins when optimizer 1 has fewer crossings, draws on a tie, losses otherwise |
| CompareMode.ScoreSwapped | src/comparer/compare_mode.rs:104-108 | swapping the optimizers swaps wins and losses |
| CompareMode.FinalGraphIsLastBeforeDone | src/comparer/compare_mode.rs:143-157 | the read completes exactly when graphs are followed by DONE; it returns the last graph before DONE and leaves what follows |
| CompareMode.FinalGraph | src/comparer/compare_mode.rs:143-157 | `read_final_response` on the message stream: it never consumes more than there is; `FinalGraphIsLastBeforeDone` states what it returns |
| CompareMode.ReadFinalResponse | src/comparer/compare_mode.rs:143-157 | the method's result and the messages left are those of the final-graph function; nothing is written |
| CompareMode.Requests | src/comparer/compare_mode.rs:77-82 | the i-th request is the encoding of the i-th instance |
| CompareMode.RoundStep | src/comparer/compare_mode.rs:84-118 | one round after its instance is written: messages are only consumed, and a round that continues or completes adds exactly one to the counters, a completed one recording the round it stopped at |
| CompareMode.Play | src/comparer/compare_mode.rs:38-130 | the `while` loop from round `current`: messages are only consumed, and no fewer instances are written than rounds begun (`PlayStandings` and `AtMostMaxGames` bound it) |
| CompareMode.PlayOneRound | src/comparer/compare_mode.rs:50-118 | one round writes the instance once to each optimizer and then reads, scores and consults the verdict as the round function says |
| CompareMode.Compare | src/comparer/compare_mode.rs:38-130 | the result and both message streams are those of the loop function; each optimizer receives exactly the instances of the rounds played, in order |
| CompareMode.PlayStandings | src/comparer/compare_mode.rs:38-130 | a completed comparison either used the whole budget with one counted round per instance, or stopped on a decisive verdict with `current_instance` one less than the rounds counted; counters never decrease |
| CompareMode.AtMostMaxGames | src/comparer/compare_mode.rs:38-39 | a completed comparison never counts more than `max_games` rounds, and however it ends no more than `max_games` instances are written to either optimizer |
| Corpus.Keep | src/graphs_runner.rs:185-194 | keeps exactly the entries whose name contains the pattern |
| Corpus.FilterGraphs | src/graphs_runner.rs:185-194 | no filter keeps every entry; a filter keeps exactly the entries whose name contains it |
| Corpus.KeepDistributes | src/graphs_runner.rs:187-190 | filtering keeps the order: it distributes over concatenation |
| Corpus.KeepIdempotent | src/graphs_runner.rs:187-190 | filtering twice by one pattern is filtering once |
| Corpus.FirstMatch | src/graphs_runner.rs:63-67 | the index of the first name containing the pattern, or the length when none does |
| Corpus.SkipTo | src/graphs_runner.rs:63-67 | the entries from the first match on, each paired with its index in the filtered list |
| Corpus.SkipToEmptyKeepsAll | src/graphs_runner.rs:40 | without `--skip-to`, every graph is processed with its own index |
| Corpus.SkipToSkipsNonMatching | src/graphs_runner.rs:63-67 | when the j-th name matches, every graph from j on is processed, and the first one processed has a matching name |
| Corpus.NewlinesToSpaces | src/graphs_runner.rs:72-76 | every newline byte becomes a space; other bytes and the length are unchanged |
| Corpus.FramedIsOneLine | src/graphs_runner.rs:72-83 | once framed, the request holds exactly one newline, at its end |
| Corpus.NewlinesToSpacesIdempotent | src/graphs_runner.rs:72-76 | the map is idempotent and the identity on a graph without newlines |
| GraphsRunner.Gate | src/graphs_runner.rs:85-144 | panics exactly when an endpoint is out of range; otherwise the score is present exactly when the drawing is valid and keeps the node and edge counts, and then it is `max_per_edge` |
| GraphsRunner.OutOfRangeAnswerPanicsInsteadOfDisqualifying | src/graphs_runner.rs:88-120 | an answer with an out-of-range endpoint ends the run, though `is_valid` would have rejected it |
| GraphsRunner.DanglingEdgeFixture | src/graphs_runner.rs:88 | an edge to a missing node ends the run |
| GraphsRunner.ReadStart | src/optimizer_protocol.rs:123-132 | the name of a START message; any other message panics |
| GraphsRunner.StartName | src/optimizer_protocol.rs:123-132 | `read_start` on the message stream: a START gives its name, any other message panics, no message never completes |
| GraphsRunner.GraphStepSpec | src/graphs_runner.rs:72-166 | one graph: messages are only consumed, the graph is written at most once and exactly as mapped, and a recorded run is named after its graph |
| GraphsRunner.RunGraph | src/graphs_runner.rs:72-166 | one graph's step, the messages left and the requests written are those of the step function |
| GraphsRunner.RunGraphs | src/graphs_runner.rs:63-167 | the recorded runs and the channel state are those of the loop function |
| GraphsRunner.RunFrom | src/graphs_runner.rs:63-167 | the loop from the k-th selected graph: messages are only consumed, and requests are only appended, at most one per remaining graph |
| GraphsRunner.RunSpec | src/graphs_runner.rs:29-182 | `run`: an empty selection panics; otherwise `read_start`, then the loop over the skip-to selection, ending with the team name and the recorded runs |
| GraphsRunner.Run | src/graphs_runner.rs:29-182 | an empty selection panics; otherwise the team name is read, then the selected graphs are run |
| GraphsRunner.RunsFollowProcessingOrder | src/graphs_runner.rs:63-167 | runs are only appended, and the recorded names are a subsequence of the processed graphs in processing order |
| GraphsRunner.CrashedGraphIsSkipped | src/graphs_runner.rs:99-108 | after a crash and a fresh START nothing is recorded and the next graph follows |
| GraphsRunner.UnexpectedAnswerIsInvalidData | src/graphs_runner.rs:109-114 | a START or DONE in place of an answer ends the run with InvalidData |
| RunStatistics.SingleRun.constructor | src/leaderboard/run_statistics.rs:35-40 | a new run has the given time and no graphs |
| RunStatistics.SingleRun.NewGraph | src/leaderboard/run_statistics.rs:42-48 | appends an empty entry for the graph and hands out its index; the time is unchanged |
| RunStatistics.SingleRun.PushCrossing | src/leaderboard/subcommand.rs:51-54 | appends the statistic to that entry only |
| RunStatistics.Stored | src/leaderboard/run_statistics.rs:72-77 | a blank file gives a fresh record with the given name; otherwise the file's decoded contents |
| RunStatistics.WriteRun | src/leaderboard/run_statistics.rs:59-86 | fails exactly when the stored file is corrupt; keeps the stored name and runs; appends the run exactly when it has graphs |
| Plots.NamesOf | src/leaderboard/plots.rs:124-128 | one name per graph entry, in order |
| Plots.GetGraphNames | src/leaderboard/plots.rs:121-138 | the same multiset of names as the graph entries, repeats kept |
| Plots.IdsUpTo | src/leaderboard/plots.rs:140-146 | the map of a prefix holds its names, each mapped to a position that holds it, the last such position |
| Plots.MakeGraphIds | src/leaderboard/plots.rs:140-146 | every name maps to a position that holds it, the last one |
| Plots.BestFrom | src/leaderboard/plots.rs:153-160 | a finished loop keeps the vector's length, and every entry's name was mapped inside it |
| Plots.Unset | src/leaderboard/plots.rs:152 | one `u32::MAX` slot per map entry |
| Plots.BestValues | src/leaderboard/plots.rs:148-162 | `get_best_crossing_values`: one `u32::MAX` slot per map entry, lowered over all graph entries in order; a missing name or an index past the vector panics |
| Plots.GetBestCrossingValues | src/leaderboard/plots.rs:148-162 | the array holds the values of the table function, and the method panics exactly when that function does |
| Plots.BestFromSucceeds | src/leaderboard/plots.rs:158-159 | the loop finishes exactly when every entry's name is mapped to an index inside the vector |
| Plots.BestFromIsMinimum | src/leaderboard/plots.rs:153-160 | slots only decrease; each slot is at most every score mapped to it, and a slot that moved holds one of those scores |
| Plots.PlotTableAsWritten | src/leaderboard/plots.rs:13-16 | the table as `plot_runs` builds it, from the names with repeats kept (`RepeatedGraphPanics`) |
| Plots.PlotTable | src/leaderboard/plots.rs:13-16 | the table built from the distinct names (`DistinctNamesNeverPanic`) |
| Plots.RepeatedGraphPanics | src/leaderboard/plots.rs:13-16 | two runs of one graph make the table panic with index 1 of a 1-slot vector |
| Plots.Dedup | src/leaderboard/plots.rs:121-138 | the same names, each once |
| Plots.DistinctCardinality | src/leaderboard/plots.rs:152 | a list of distinct names has as many names as its set |
| Plots.DistinctGraphNames | src/leaderboard/plots.rs:121-138 | distinct names that cover every graph entry |
| Plots.DistinctNamesNeverPanic | src/leaderboard/plots.rs:13-16 | with distinct names the table never panics, has one slot per name, and each slot is the minimum of its entries' scores (or `u32::MAX`) |
| Subcommand.Answers | src/leaderboard/subcommand.rs:44-55 | a finished inner loop consumed at least one message and only extended the answers collected so far |
| Subcommand.CollectAnswers | src/leaderboard/subcommand.rs:44-55 | the messages left are those of the answers function, and on success only the graph's own entry changes, to those answers |
| Subcommand.LeaderboardFrom | src/leaderboard/subcommand.rs:32-56 | the outer loop from the k-th graph: messages are only consumed, and requests are only appended, at most one per remaining graph |
| Subcommand.LeaderboardSpec | src/leaderboard/subcommand.rs:12-65 | `leaderboard_mode`: the filtered graphs are run in order and the run is stamped with the given time |
| Subcommand.LeaderboardMode | src/leaderboard/subcommand.rs:12-65 | the run and channel state are those of the loop function; an empty selection returns an empty run without touching the optimizer |
| Subcommand.OneEntryPerGraph | src/leaderboard/subcommand.rs:32-56 | a completed run has one entry per selected graph, in order, each named after its graph |
| Subcommand.AsMessages | src/leaderboard/subcommand.rs:45-46 | one graph message per answer, in order |
| Subcommand.AnswersInArrivalOrder | src/leaderboard/subcommand.rs:44-55 | each answer before DONE becomes one statistic in arrival order, and DONE ends the graph |
| Text.TrimEnd | src/optimizer_protocol.rs:93-97 | a prefix of the input that drops only trailing whitespace and ends in non-whitespace |
| Text.TrimStart | src/leaderboard/run_statistics.rs:72 | a suffix of the input that drops only leading whitespace |
| Text.Trim | src/leaderboard/run_statistics.rs:72 | `str::trim`: leading, then trailing whitespace dropped; `TrimEmptyIffBlank` states when it is empty |
| Text.TrimAscii | src/optimizer_protocol.rs:101-104 | a slice of the input with only ASCII whitespace before and after it, and none at its own ends |
| Text.TrimAsciiStart | src/optimizer_protocol.rs:101-104 | a suffix of the input with only ASCII whitespace dropped before it, and none at its start |
| Text.TrimAsciiEnd | src/optimizer_protocol.rs:101-104 | a prefix of the input with only ASCII whitespace dropped after it, and none at its end |
| Text.TrimAsciiIsUnique | src/optimizer_protocol.rs:101-104 | every slice with those properties is the trimmed string |
| Text.TrimEmptyIffBlank | src/leaderboard/run_statistics.rs:72 | `trim()` is empty exactly when the text is all whitespace |
| Text.Contains | src/graphs_runner.rs:189 | true exactly when the pattern occurs at some offset |

## Left out

- SPRT numerics (`sprt.rs` apart from the three-way verdict): the log-likelihood ratio and the bounds are `real` inputs of `CompareMode.Config`, because they are `f32` computations with `erf_inv`.
- Process spawning, standard-error forwarding (`redirect_stderr`, `take_stderr`) and the `async` plumbing are not modelled; the optimizer is a message stream.
- `future::zip` concurrency is not modelled: compare mode writes to both optimizers and then reads optimizer 1 completely before optimizer 2.
- I/O errors from `read_line`, `write_all`, `flush`, `fs::read` and file handling are not modelled; only the end of the output, which never completes a read, is modelled as `Stuck`.
- JSON encoding and decoding (serde) are function parameters (`Parser`, `serialize`, `parseInput`, `parse`). The one decoding the model fixes is the empty line read after a `GRAPH` line at the end of the output, which the JSON decoder always rejects.
- The numeric sort of graph names is a parameter known only to permute its input (`Plots.Permutes`).
- Random instance generation (`random_gnp_graph`, `gen_range`) is a seeded `Draw` per round; only the shape it gives the instance is modelled.
- Clocks are parameters: the leaderboard durations come from `Subcommand.Clock`, the run time from a `now` argument, and graphs mode's `duration_ms` is dropped from `GraphsRunner.GraphStats`.
- `collect_graphs` (the directory walk), `ResultsWriter` and the saving of answer graphs, `stats.rs`, the chart rendering of `plot_runs`, `index.js`, `cli.rs`, `main.rs` and `leaderboard_mode.rs` are not part of this model.
- `GraphStatistics::max_per_edge()` (in `stats.rs`) is an abstract `Plots.Score`.
- The isomorphism check of graphs mode only prints a warning and is left out.
- The printed messages are not modelled, including the one at `compare_mode.rs:101` that shows optimizer 1's count for optimizer 2.
- The text of validation errors is not modelled, including `num_nodes - 1` underflowing (a panic in a debug build) when a graph with no nodes has an edge.
- Crossings.CountCrossings: counts are unbounded, so the overflow of `total` is not modelled. The source's `total` is a `u32`. A debug build panics when it passes 2^32 - 1, and a release build wraps. Up to E(E-1)/2 pairs can cross, so this can happen from 92,683 edges on. The per-edge counter stays below the number of edges.
- CompareMode.Score: the `u32` tallies are unbounded.
- The `&mut GraphStatistics` that `new_graph` returns is modelled as an index into `SingleRun.graphs`, so aliasing is not modelled.
- The non-exhaustive matches of `read_final_response` (`compare_mode.rs:145-152`) and of the answer loop of `leaderboard_mode` (`subcommand.rs:45-48`) accept only a graph or DONE; any other message is modelled as a panic (`UnexpectedMessage`).
- GraphsRunner.Run: the `io::Error`s that graphs mode returns, `UnparsableInput` (the `?` at `graphs_runner.rs:78`) and `InvalidData` (the catch-all arm at `graphs_runner.rs:109-114`), are carried as `Outcome.Panicked` like its panics, so the model does not tell an `Err` returned by `run` from a panic. The comments on `GraphsRunner.Fault` say which is which.
- Geometry.IsCollinear: uses the exact orientation `Geometry.Ccw`, not the `u32` arithmetic of `ccw` as written (`Geometry.CcwWrapping`). It is proved to agree with the source only while every coordinate is at most 37837 (`Geometry.CcwWrappingExactBelowBound`). Beyond that a release build wraps and a debug build panics.
- Geometry.IsCrossing: uses the exact orientation for the same reason, so `Crossings.CountCrossings`, `Validation.Validate`, `GraphsRunner.Gate` and `CompareMode.Score` follow the source only up to that bound. Compare mode's canvas is 1,000,000 wide and its answers are never validated, so there the source's counts can differ.

## Findings

| source | as written | input that shows it | evidently intended | confidence | as-written member | corrected member |
|---|---|---|---|---|---|---|
| src/graph.rs:181-184 | `ccw` compares two sums of `u32` products, which wrap modulo 2^32 in a release build (the FIXME at line 182) | points (0,0), (65536,1), (1,65536): the exact orientation is counter-clockwise, the wrapped one clockwise | the sign of the cross product for every coordinate up to the canvas size | not executed | Geometry.CcwWrappingWrongOrientation | Geometry.Ccw |
| src/leaderboard/plots.rs:13-16 | the names keep repeats, the id map has one entry per distinct name, and the vector is sized by the map | one statistics file with two runs of graph "a": index 1 into a vector of length 1 | one column per distinct graph name, holding its best score | not executed | Plots.RepeatedGraphPanics | Plots.DistinctNamesNeverPanic |
