/**
 * `src/optimizer_protocol.rs`: the line protocol spoken with one optimizer child process.
 * The child's output is the sequence of chunks successive `read_line` calls append (each a
 * line with its newline, the last one possibly without); its input is the byte sequence
 * written so far. JSON decoding of a graph is the function `parse`, supplied from outside.
 */
module Protocol {
  import opened Wrappers
  import opened Text
  import Geometry

  type byte = b: int | 0 <= b < 256

  const NEWLINE: byte := 10

  /** `OptimizerResponse`. */
  datatype Response = Start(name: string) | Graph(text: string, graph: Geometry.Graph) | Done

  /** Why the harness panics while talking to the optimizer. */
  datatype PanicReason =
    | UnknownResponse(line: string)
    | UnparsableGraph(line: string)
    | ExpectedStart(got: Response)
    | ExpectedGraph(got: Response)
    | NoGraphs

  type Parser = string -> Option<Geometry.Graph>

  /** `starts_with`: the text after `pattern` when `text` begins with it. */
  function StartsWith(text: string, pattern: string): (r: Option<string>)
    ensures r.Some? <==> pattern <= text
    ensures r.Some? ==> pattern + r.value == text
  {
    if pattern <= text then
      assert pattern + text[|pattern|..] == text;
      Some(text[|pattern|..])
    else None
  }

  /**
   * The skip loop of `read_response`: while the buffer is blank after `trim_end`, append the
   * next line to the SAME buffer. None when the output ends first: `read_line` then returns 0
   * bytes forever and the loop never exits.
   */
  function FillLine(buffer: string, output: seq<string>): (r: Option<(string, seq<string>)>)
    ensures r.Some? ==> |TrimEnd(r.value.0)| != 0 && |r.value.1| <= |output|
    ensures r.Some? && |TrimEnd(buffer)| == 0 ==> |r.value.1| < |output|
    decreases |output|
  {
    if |TrimEnd(buffer)| != 0 then Some((buffer, output))
    else if output == [] then None
    else FillLine(buffer + output[0], output[1..])
  }

  /**
   * What the skip loop reads: the filled buffer is the old buffer followed by the lines it
   * consumed, the rest is what follows them, and the buffer was still blank before the last
   * of them. The loop never ends exactly when the buffer and all remaining lines are blank.
   */
  lemma {:induction false} FillLineReadsWholeLines(buffer: string, output: seq<string>)
    ensures var r := FillLine(buffer, output);
      r.Some? ==> var used := |output| - |r.value.1|;
        && r.value.1 == output[used..]
        && r.value.0 == buffer + Concat(output[..used])
        && (used > 0 ==> IsBlank(buffer + Concat(output[..used - 1])))
    ensures FillLine(buffer, output).None? <==> IsBlank(buffer + Concat(output))
    decreases |output|
  {
    TrimEndEmptyIffBlank(buffer);
    if |TrimEnd(buffer)| != 0 {
      BlankPrefix(buffer, Concat(output));
      assert buffer + Concat(output[..0]) == buffer;
    } else if output == [] {
      assert buffer + Concat(output) == buffer;
    } else {
      FillLineReadsWholeLines(buffer + output[0], output[1..]);
      assert buffer + Concat(output) == (buffer + output[0]) + Concat(output[1..]);
      var r := FillLine(buffer + output[0], output[1..]);
      if r.Some? {
        FillLineStep(buffer, output, r.value.0, r.value.1);
      }
    }
  }

  /** The lines read, joined: `read_line` appends each line, newline included, to the buffer. */
  function Concat(lines: seq<string>): string
  {
    if lines == [] then "" else lines[0] + Concat(lines[1..])
  }

  lemma BlankPrefix(a: string, b: string)
    ensures IsBlank(a + b) ==> IsBlank(a)
  {
    if IsBlank(a + b) {
      forall k | 0 <= k < |a|
        ensures IsWhitespace(a[k])
      {
        assert (a + b)[k] == a[k];
      }
    }
  }

  /** The bookkeeping of one more line read into a blank buffer. */
  lemma FillLineStep(buffer: string, output: seq<string>, line: string, rest: seq<string>)
    requires output != [] && IsBlank(buffer) && |rest| <= |output| - 1
    requires var used := |output| - 1 - |rest|;
      && rest == output[1..][used..]
      && line == buffer + output[0] + Concat(output[1..][..used])
      && (used > 0 ==> IsBlank(buffer + output[0] + Concat(output[1..][..used - 1])))
    ensures var used := |output| - |rest|;
      && rest == output[used..]
      && line == buffer + Concat(output[..used])
      && (used > 0 ==> IsBlank(buffer + Concat(output[..used - 1])))
  {
    var used := |output| - |rest|;
    assert output[1..][used - 1..] == output[used..];
    assert output[..used][1..] == output[1..][..used - 1];
    assert Concat(output[..used]) == output[0] + Concat(output[1..][..used - 1]);
    if used > 1 {
      assert output[..used - 1][1..] == output[1..][..used - 2];
      assert Concat(output[..used - 1]) == output[0] + Concat(output[1..][..used - 2]);
      assert buffer + Concat(output[..used - 1]) == buffer + output[0] + Concat(output[1..][..used - 2]);
    } else {
      assert buffer + Concat(output[..0]) == buffer;
    }
  }

  /** The classification of the trimmed line. */
  function Classify(line: string, output: seq<string>, parse: Parser): (Outcome<Response, PanicReason>, seq<string>)
  {
    var start := StartsWith(line, "START");
    if start.Some? then (Completed(Start(TrimAscii(start.value))), output)
    else
      var graph := StartsWith(line, "GRAPH");
      if graph.Some? then ReadGraphLine(TrimAscii(graph.value), output, parse)
      else if line == "DONE" then (Completed(Done), output)
      else (Panicked(UnknownResponse(line)), output)
  }

  /**
   * A `GRAPH` line takes the next line as its graph. At the end of the output `read_line`
   * leaves the line empty, and the JSON decoder rejects an empty string.
   */
  function ReadGraphLine(text: string, output: seq<string>, parse: Parser): (Outcome<Response, PanicReason>, seq<string>)
  {
    if output == [] then (Panicked(UnparsableGraph("")), [])
    else
      var decoded := parse(output[0]);
      if decoded.None? then (Panicked(UnparsableGraph(output[0])), output[1..])
      else (Completed(Graph(text, decoded.value)), output[1..])
  }

  /** What one `read_response` call returns, and the output left after it. */
  function DecodeResponse(output: seq<string>, parse: Parser): (r: (Outcome<Response, PanicReason>, seq<string>))
    ensures |r.1| <= |output|
    ensures r.0.Completed? ==> |r.1| < |output|
  {
    var filled := FillLine("", output);
    if filled.None? then (Stuck, [])
    else Classify(TrimEnd(filled.value.0), filled.value.1, parse)
  }

  /** What `read_start` returns. */
  function DecodeStart(output: seq<string>, parse: Parser): (Outcome<string, PanicReason>, seq<string>)
  {
    var (r, rest) := DecodeResponse(output, parse);
    match r
    case Completed(Start(name)) => (Completed(name), rest)
    case Completed(other) => (Panicked(ExpectedStart(other)), rest)
    case Panicked(reason) => (Panicked(reason), rest)
    case Stuck => (Stuck, rest)
  }

  /** What `read_graphs` returns, having collected `acc` already. */
  function DecodeGraphs(output: seq<string>, parse: Parser, acc: seq<(string, Geometry.Graph)>)
    : (r: (Outcome<seq<(string, Geometry.Graph)>, PanicReason>, seq<string>))
    ensures |r.1| <= |output|
    ensures r.0.Completed? ==> r.0.value != [] && acc <= r.0.value
    decreases |output|
  {
    var (r, rest) := DecodeResponse(output, parse);
    match r
    case Completed(Graph(text, graph)) => DecodeGraphs(rest, parse, acc + [(text, graph)])
    case Completed(Done) => if acc == [] then (Panicked(NoGraphs), rest) else (Completed(acc), rest)
    case Completed(other) => (Panicked(ExpectedGraph(other)), rest)
    case Panicked(reason) => (Panicked(reason), rest)
    case Stuck => (Stuck, rest)
  }

  /** `Optimizer`: one child process, seen through its two pipes. */
  class Optimizer {
    const id: nat
    const parse: Parser
    /** What the child has printed and the harness has not read yet. */
    var stdout: seq<string>
    /** Everything the harness has written to the child. */
    var stdin: seq<byte>

    /** `Optimizer::new`, once the process is spawned. */
    constructor (id: nat, parse: Parser, output: seq<string>)
      ensures this.id == id && this.parse == parse
      ensures stdout == output && stdin == []
    {
      this.id := id;
      this.parse := parse;
      stdout := output;
      stdin := [];
    }

    /** `write_graph_bytes`: the bytes, then one newline, then a flush. */
    method WriteGraphBytes(graph: seq<byte>)
      modifies this`stdin
      ensures stdin == old(stdin) + graph + [NEWLINE]
    {
      stdin := stdin + graph;
      stdin := stdin + [NEWLINE];
    }

    /** `write_graph`: the compact JSON encoding (`serialize`), framed by `write_graph_bytes`. */
    method WriteGraph(graph: Geometry.Graph, serialize: Geometry.Graph -> seq<byte>)
      modifies this`stdin
      ensures stdin == old(stdin) + serialize(graph) + [NEWLINE]
    {
      WriteGraphBytes(serialize(graph));
    }

    /** `read_response`. */
    method ReadResponse() returns (r: Outcome<Response, PanicReason>)
      modifies this`stdout
      ensures (r, stdout) == DecodeResponse(old(stdout), parse)
    {
      var line := "";
      while |TrimEnd(line)| == 0
        invariant FillLine(line, stdout) == FillLine("", old(stdout))
        decreases |stdout|
      {
        if stdout == [] {
          // read_line keeps returning 0 bytes: the loop would spin forever
          return Stuck;
        }
        line := line + stdout[0];
        stdout := stdout[1..];
      }
      var trimmed := TrimEnd(line);
      var rest := StartsWith(trimmed, "START");
      if rest.Some? {
        return Completed(Start(TrimAscii(rest.value)));
      }
      rest := StartsWith(trimmed, "GRAPH");
      if rest.Some? {
        var text := TrimAscii(rest.value);
        if stdout == [] {
          // read_line leaves the line empty, which no JSON document is
          return Panicked(UnparsableGraph(""));
        }
        var graphLine := stdout[0];
        stdout := stdout[1..];
        var graph := parse(graphLine);
        if graph.None? {
          return Panicked(UnparsableGraph(graphLine));
        }
        return Completed(Graph(text, graph.value));
      }
      if trimmed == "DONE" {
        return Completed(Done);
      }
      return Panicked(UnknownResponse(trimmed));
    }

    /** `read_start`. */
    method ReadStart() returns (r: Outcome<string, PanicReason>)
      modifies this`stdout
      ensures (r, stdout) == DecodeStart(old(stdout), parse)
    {
      var response := ReadResponse();
      match response
      case Completed(Start(name)) => r := Completed(name);
      case Completed(other) => r := Panicked(ExpectedStart(other));
      case Panicked(reason) => r := Panicked(reason);
      case Stuck => r := Stuck;
    }

    /** `read_graphs`. */
    method ReadGraphs() returns (r: Outcome<seq<(string, Geometry.Graph)>, PanicReason>)
      modifies this`stdout
      ensures (r, stdout) == DecodeGraphs(old(stdout), parse, [])
    {
      var results := [];
      while true
        invariant DecodeGraphs(stdout, parse, results) == DecodeGraphs(old(stdout), parse, [])
        decreases |stdout|
      {
        var response := ReadResponse();
        match response
        case Completed(Graph(text, graph)) =>
          results := results + [(text, graph)];
        case Completed(Done) =>
          break;
        case Completed(other) =>
          return Panicked(ExpectedGraph(other));
        case Panicked(reason) =>
          return Panicked(reason);
        case Stuck =>
          return Stuck;
      }
      if results == [] {
        return Panicked(NoGraphs);
      }
      return Completed(results);
    }
  }

  /** `AllOk::all_ok` on a pair: both values, or the first error in pair order. */
  function AllOk<T, E>(pair: (Result<T, E>, Result<T, E>)): (r: Result<(T, T), E>)
    ensures r.Ok? <==> pair.0.Ok? && pair.1.Ok?
    ensures r.Ok? ==> r.value == (pair.0.value, pair.1.value)
    ensures pair.0.Err? ==> r == Err(pair.0.error)
    ensures pair.0.Ok? && pair.1.Err? ==> r == Err(pair.1.error)
  {
    match pair
    case (Ok(a), Ok(b)) => Ok((a, b))
    case (Err(e), _) => Err(e)
    case (_, Err(e)) => Err(e)
  }

  // ---------------------------------------------------------------------------
  // The optimizer's side: the lines a well-behaved optimizer prints, and their decoding.

  /** Text that survives framing: one line, and nothing the trims would strip at its ends. */
  predicate Printable(s: string)
  {
    (forall k :: 0 <= k < |s| ==> s[k] != '\n')
    && (s == [] || (!IsAsciiWhitespace(s[0]) && !IsWhitespace(s[|s| - 1])))
  }

  predicate WellFormed(r: Response)
  {
    match r
    case Start(name) => Printable(name)
    case Graph(text, _) => Printable(text)
    case Done => true
  }

  /** The lines an optimizer prints for `r`; `json` is the encoded graph of a `Graph` response. */
  function Encode(r: Response, json: string): seq<string>
  {
    match r
    case Start(name) => ["START " + name + "\n"]
    case Graph(text, _) => ["GRAPH " + text + "\n", json]
    case Done => ["DONE\n"]
  }

  /** The line a keyword and its text are framed into, once `trim_end` has removed the newline. */
  function Framed(keyword: string, text: string): string
  {
    if text == [] then keyword else keyword + " " + text
  }

  lemma {:induction false} TrimEndOfFrame(keyword: string, text: string)
    requires keyword != [] && !IsWhitespace(keyword[|keyword| - 1])
    requires Printable(text)
    ensures TrimEnd(keyword + " " + text + "\n") == Framed(keyword, text)
  {
    var s := keyword + " " + text + "\n";
    assert s[..|s| - 1] == keyword + " " + text;
    if text == [] {
      assert keyword + " " + text + "\n" == keyword + " \n";
      assert (keyword + " \n")[..|keyword| + 1] == keyword + " ";
      assert (keyword + " ")[..|keyword|] == keyword;
      assert TrimEnd(keyword + " \n") == TrimEnd(keyword + " ");
      assert TrimEnd(keyword + " ") == TrimEnd(keyword);
    } else {
      assert (keyword + " " + text)[|keyword + " " + text| - 1] == text[|text| - 1];
    }
  }

  lemma {:induction false} TrimAsciiOfFrame(keyword: string, text: string)
    requires Printable(text)
    ensures StartsWith(Framed(keyword, text), keyword) == Some(if text == [] then "" else " " + text)
    ensures TrimAscii(StartsWith(Framed(keyword, text), keyword).value) == text
  {
    FramedAfterKeyword(keyword, text);
    if text != [] {
      TrimAsciiOfSpaced(text);
    }
  }

  lemma FramedAfterKeyword(keyword: string, text: string)
    ensures StartsWith(Framed(keyword, text), keyword) == Some(if text == [] then "" else " " + text)
  {
    if text == [] {
      assert keyword + "" == keyword;
    } else {
      assert keyword + " " + text == keyword + (" " + text);
    }
  }

  lemma {:induction false} TrimAsciiOfSpaced(text: string)
    requires text != [] && Printable(text)
    ensures TrimAscii(" " + text) == text
  {
    assert (" " + text)[1..] == text;
    assert TrimAsciiStart(" " + text) == TrimAsciiStart(text);
    AsciiWhitespaceIsWhitespace(text[|text| - 1]);
    TrimAsciiUntouched(text);
  }

  /** A chunk that is not blank is decoded on its own. */
  lemma {:induction false} DecodeFirstChunk(chunk: string, rest: seq<string>, parse: Parser)
    requires TrimEnd(chunk) != []
    ensures DecodeResponse([chunk] + rest, parse) == Classify(TrimEnd(chunk), rest, parse)
  {
    assert "" + chunk == chunk;
    assert ([chunk] + rest)[1..] == rest;
    assert FillLine(chunk, rest) == Some((chunk, rest));
  }

  lemma {:induction false} DecodeEncodedStart(name: string, rest: seq<string>, parse: Parser)
    requires Printable(name)
    ensures DecodeResponse(["START " + name + "\n"] + rest, parse) == (Completed(Start(name)), rest)
  {
    TrimEndOfFrame("START", name);
    assert Framed("START", name)[0] == 'S';
    assert "START " + name + "\n" == "START" + " " + name + "\n";
    DecodeFirstChunk("START " + name + "\n", rest, parse);
    TrimAsciiOfFrame("START", name);
  }

  lemma GraphLineIsClassifiedAsGraph(line: string, text: string, output: seq<string>, parse: Parser)
    requires StartsWith(line, "START") == None
    requires StartsWith(line, "GRAPH").Some? && TrimAscii(StartsWith(line, "GRAPH").value) == text
    ensures Classify(line, output, parse) == ReadGraphLine(text, output, parse)
  {
  }

  lemma {:induction false} ClassifyFramedGraph(text: string, graph: Geometry.Graph, json: string,
                                               rest: seq<string>, parse: Parser)
    requires Printable(text) && parse(json) == Some(graph)
    ensures Classify(Framed("GRAPH", text), [json] + rest, parse) == (Completed(Graph(text, graph)), rest)
  {
    var line := Framed("GRAPH", text);
    TrimAsciiOfFrame("GRAPH", text);
    assert line[0] == 'G';
    GraphLineIsClassifiedAsGraph(line, text, [json] + rest, parse);
    assert ([json] + rest)[1..] == rest;
  }

  lemma {:induction false} DecodeEncodedGraph(text: string, graph: Geometry.Graph, json: string,
                                              rest: seq<string>, parse: Parser)
    requires Printable(text) && parse(json) == Some(graph)
    ensures DecodeResponse(["GRAPH " + text + "\n", json] + rest, parse) == (Completed(Graph(text, graph)), rest)
  {
    TrimEndOfFrame("GRAPH", text);
    assert Framed("GRAPH", text)[0] == 'G';
    assert "GRAPH " + text + "\n" == "GRAPH" + " " + text + "\n";
    assert ["GRAPH " + text + "\n", json] + rest == ["GRAPH " + text + "\n"] + ([json] + rest);
    DecodeFirstChunk("GRAPH " + text + "\n", [json] + rest, parse);
    ClassifyFramedGraph(text, graph, json, rest, parse);
  }

  lemma {:induction false} DecodeEncodedDone(rest: seq<string>, parse: Parser)
    ensures DecodeResponse(["DONE\n"] + rest, parse) == (Completed(Done), rest)
  {
    assert TrimEnd("DONE\n") == "DONE" by {
      assert "DONE\n"[..4] == "DONE";
    }
    DecodeFirstChunk("DONE\n", rest, parse);
  }

  /** Decoding what an optimizer prints for a well-formed response gives that response back. */
  lemma {:induction false} DecodeEncoded(r: Response, json: string, rest: seq<string>, parse: Parser)
    requires WellFormed(r)
    requires r.Graph? ==> parse(json) == Some(r.graph)
    ensures DecodeResponse(Encode(r, json) + rest, parse) == (Completed(r), rest)
  {
    match r
    case Start(name) => DecodeEncodedStart(name, rest, parse);
    case Graph(text, graph) => DecodeEncodedGraph(text, graph, json, rest, parse);
    case Done => DecodeEncodedDone(rest, parse);
  }

  /** A decoded graph joins the batch and decoding goes on after it. */
  lemma DecodeGraphsAfterGraph(output: seq<string>, rest: seq<string>, text: string, graph: Geometry.Graph,
                               parse: Parser, acc: seq<(string, Geometry.Graph)>)
    requires DecodeResponse(output, parse) == (Completed(Graph(text, graph)), rest)
    ensures DecodeGraphs(output, parse, acc) == DecodeGraphs(rest, parse, acc + [(text, graph)])
  {
  }

  /** The lines printed for a batch of graphs and its closing `DONE`. */
  function EncodeBatch(items: seq<(string, Geometry.Graph)>, jsons: seq<string>): seq<string>
    requires |jsons| == |items|
  {
    if items == [] then ["DONE\n"]
    else Encode(Graph(items[0].0, items[0].1), jsons[0]) + EncodeBatch(items[1..], jsons[1..])
  }

  /** `read_graphs` returns the graphs of a batch in the order they were printed; an empty batch panics. */
  lemma {:induction false} DecodeEncodedBatch(items: seq<(string, Geometry.Graph)>, jsons: seq<string>,
                                              acc: seq<(string, Geometry.Graph)>, rest: seq<string>, parse: Parser)
    requires |jsons| == |items|
    requires forall k :: 0 <= k < |items| ==> Printable(items[k].0) && parse(jsons[k]) == Some(items[k].1)
    ensures DecodeGraphs(EncodeBatch(items, jsons) + rest, parse, acc)
      == (if acc + items == [] then Panicked(NoGraphs) else Completed(acc + items), rest)
    decreases |items|
  {
    if items == [] {
      DecodeBatchDone(acc, rest, parse);
      assert acc + items == acc;
    } else {
      var acc' := acc + [items[0]];
      assert acc' + items[1..] == acc + items;
      assert acc' + items[1..] != [];
      BatchTailEncodable(items, jsons, parse);
      DecodeEncodedBatch(items[1..], jsons[1..], acc', rest, parse);
      DecodeBatchHead(items, jsons, acc, rest, parse);
    }
  }

  /** The `DONE` line that closes a batch ends `read_graphs` with what it has collected. */
  lemma DecodeBatchDone(acc: seq<(string, Geometry.Graph)>, rest: seq<string>, parse: Parser)
    ensures DecodeGraphs(EncodeBatch([], []) + rest, parse, acc)
      == (if acc == [] then Panicked(NoGraphs) else Completed(acc), rest)
  {
    assert EncodeBatch([], []) + rest == Encode(Done, "") + rest;
    DecodeEncoded(Done, "", rest, parse);
  }

  /** What makes a batch decodable holds for the batch without its first graph. */
  lemma BatchTailEncodable(items: seq<(string, Geometry.Graph)>, jsons: seq<string>, parse: Parser)
    requires |jsons| == |items| && items != []
    requires forall k :: 0 <= k < |items| ==> Printable(items[k].0) && parse(jsons[k]) == Some(items[k].1)
    ensures forall k :: 0 <= k < |items| - 1 ==> Printable(items[1..][k].0) && parse(jsons[1..][k]) == Some(items[1..][k].1)
  {
    forall k | 0 <= k < |items| - 1
      ensures Printable(items[1..][k].0) && parse(jsons[1..][k]) == Some(items[1..][k].1)
    {
      assert items[1..][k] == items[k + 1] && jsons[1..][k] == jsons[k + 1];
    }
  }

  /** The first graph of a batch is decoded and joins the ones collected so far. */
  lemma DecodeBatchHead(items: seq<(string, Geometry.Graph)>, jsons: seq<string>,
                        acc: seq<(string, Geometry.Graph)>, rest: seq<string>, parse: Parser)
    requires |jsons| == |items| && items != []
    requires Printable(items[0].0) && parse(jsons[0]) == Some(items[0].1)
    ensures DecodeGraphs(EncodeBatch(items, jsons) + rest, parse, acc)
      == DecodeGraphs(EncodeBatch(items[1..], jsons[1..]) + rest, parse, acc + [items[0]])
  {
    var first := Graph(items[0].0, items[0].1);
    var tail := EncodeBatch(items[1..], jsons[1..]) + rest;
    assert EncodeBatch(items, jsons) + rest == Encode(first, jsons[0]) + tail;
    DecodeEncoded(first, jsons[0], tail, parse);
    DecodeGraphsAfterGraph(Encode(first, jsons[0]) + tail, tail, items[0].0, items[0].1, parse, acc);
  }


  /**
   * The skip loop does not skip: a blank line stays in the buffer ahead of the next line,
   * which then matches no prefix, and a blank line at the end of the output spins forever.
   */
  lemma BlankLineIsNotSkipped(parse: Parser)
    ensures DecodeResponse(["\n", "DONE\n"], parse) == (Panicked(UnknownResponse("\nDONE")), [])
    ensures DecodeResponse(["\n"], parse) == (Stuck, [])
  {
    BlankLineJoinsNext();
    JoinedLineIsUnknown(parse);
    assert TrimEnd("\n") == "";
    assert "" + "\n" == "\n";
  }

  /**
   * For every line that is not blank: after a blank line it is read into the same buffer,
   * and the joined line, which starts with a newline, matches no keyword.
   */
  lemma {:induction false} BlankLineSpoilsNextLine(line: string, rest: seq<string>, parse: Parser)
    requires TrimEnd(line) != []
    ensures DecodeResponse(["\n", line] + rest, parse) == (Panicked(UnknownResponse("\n" + TrimEnd(line))), rest)
  {
    BlankLineJoinsLine(line, rest);
    TrimEndKeepsPrefix("\n", line);
    NewlineLineIsUnknown(TrimEnd(line), rest, parse);
  }

  lemma BlankLineJoinsLine(line: string, rest: seq<string>)
    requires TrimEnd(line) != []
    ensures FillLine("", ["\n", line] + rest) == Some(("\n" + line, rest))
  {
    EmptyBufferTakesLine(line, rest);
    NewlineBufferTakesLine(line, rest);
    TrimEndKeepsPrefix("\n", line);
    FullBufferIsKept("\n" + line, rest);
  }

  lemma EmptyBufferTakesLine(line: string, rest: seq<string>)
    ensures FillLine("", ["\n", line] + rest) == FillLine("\n", [line] + rest)
  {
    assert "" + "\n" == "\n";
    assert (["\n", line] + rest)[1..] == [line] + rest;
  }

  lemma NewlineBufferTakesLine(line: string, rest: seq<string>)
    ensures FillLine("\n", [line] + rest) == FillLine("\n" + line, rest)
  {
    assert TrimEnd("\n") == "";
    assert ([line] + rest)[1..] == rest;
  }

  lemma FullBufferIsKept(buffer: string, rest: seq<string>)
    requires TrimEnd(buffer) != []
    ensures FillLine(buffer, rest) == Some((buffer, rest))
  {
  }

  lemma NewlineLineIsUnknown(text: string, rest: seq<string>, parse: Parser)
    ensures Classify("\n" + text, rest, parse) == (Panicked(UnknownResponse("\n" + text)), rest)
  {
    var line := "\n" + text;
    assert line[0] == '\n';
    assert !("START" <= line) && !("GRAPH" <= line) && line != "DONE";
  }

  /** The blank line and the next one end up in one buffer. */
  lemma BlankLineJoinsNext()
    ensures FillLine("", ["\n", "DONE\n"]) == Some(("\nDONE\n", []))
  {
    EmptyBufferTakesBlankLine();
    BlankBufferTakesDone();
    JoinedBufferIsFull();
  }

  lemma EmptyBufferTakesBlankLine()
    ensures FillLine("", ["\n", "DONE\n"]) == FillLine("\n", ["DONE\n"])
  {
    assert "" + "\n" == "\n";
    assert ["\n", "DONE\n"][1..] == ["DONE\n"];
  }

  lemma BlankBufferTakesDone()
    ensures FillLine("\n", ["DONE\n"]) == FillLine("\nDONE\n", [])
  {
    assert TrimEnd("\n") == "";
    assert "\n" + "DONE\n" == "\nDONE\n";
    assert ["DONE\n"][1..] == [];
  }

  lemma JoinedBufferIsFull()
    ensures FillLine("\nDONE\n", []) == Some(("\nDONE\n", []))
  {
    assert TrimEnd("\nDONE\n") == "\nDONE" by {
      assert "\nDONE\n"[..5] == "\nDONE";
    }
  }

  /** The joined line starts with the blank line's newline and matches no keyword. */
  lemma JoinedLineIsUnknown(parse: Parser)
    ensures TrimEnd("\nDONE\n") == "\nDONE"
    ensures Classify("\nDONE", [], parse) == (Panicked(UnknownResponse("\nDONE")), [])
  {
    assert TrimEnd("\nDONE\n") == "\nDONE" by {
      assert "\nDONE\n"[..5] == "\nDONE";
    }
    assert !("START" <= "\nDONE");
    assert !("GRAPH" <= "\nDONE");
    assert "\nDONE" != "DONE";
  }
}
