/**
 * Choosing and preparing the graph files of a corpus run, shared by `src/graphs_runner.rs` and
 * `src/leaderboard/subcommand.rs`: the name filter, the `skip_to` suffix, the newline byte map.
 */
module Corpus {
  import opened Wrappers
  import opened Text

  type byte = b: int | 0 <= b < 256

  const NEWLINE: byte := 10
  const SPACE: byte := 32

  /** A collected graph file: its contents (what reading its path yields) and its name. */
  datatype Entry = Entry(contents: seq<byte>, name: string)

  /** The entries whose name contains `f`, in their order. */
  function Keep(graphs: seq<Entry>, f: string): (r: seq<Entry>)
    ensures |r| <= |graphs|
    ensures forall e :: e in r <==> e in graphs && Contains(e.name, f)
  {
    if graphs == [] then []
    else if Contains(graphs[0].name, f) then [graphs[0]] + Keep(graphs[1..], f)
    else Keep(graphs[1..], f)
  }

  /** `filter_graphs`: no filter keeps everything; a filter keeps the entries whose name contains it. */
  function FilterGraphs(graphs: seq<Entry>, filter: Option<string>): (r: seq<Entry>)
    ensures filter.None? ==> r == graphs
    ensures filter.Some? ==> forall e :: e in r <==> e in graphs && Contains(e.name, filter.value)
  {
    if filter.None? then graphs else Keep(graphs, filter.value)
  }

  /** Filtering keeps the order: it distributes over concatenation. */
  lemma {:induction false} KeepDistributes(a: seq<Entry>, b: seq<Entry>, f: string)
    ensures Keep(a + b, f) == Keep(a, f) + Keep(b, f)
    decreases |a|
  {
    if a != [] {
      var ab := a + b;
      assert ab != [] && ab[0] == a[0];
      assert ab[1..] == a[1..] + b;
      KeepDistributes(a[1..], b, f);
      if Contains(a[0].name, f) {
        calc {
          Keep(ab, f);
          [a[0]] + Keep(a[1..] + b, f);
          [a[0]] + (Keep(a[1..], f) + Keep(b, f));
          ([a[0]] + Keep(a[1..], f)) + Keep(b, f);
        }
      } else {
        assert Keep(ab, f) == Keep(a[1..] + b, f);
      }
    } else {
      assert a + b == b;
    }
  }

  /** Filtering twice by the same pattern is filtering once. */
  lemma {:induction false} KeepIdempotent(graphs: seq<Entry>, f: string)
    ensures Keep(Keep(graphs, f), f) == Keep(graphs, f)
    decreases |graphs|
  {
    if graphs != [] {
      KeepIdempotent(graphs[1..], f);
      if Contains(graphs[0].name, f) {
        assert ([graphs[0]] + Keep(graphs[1..], f))[1..] == Keep(graphs[1..], f);
      }
    }
  }

  /** The empty pattern occurs in every name. */
  lemma ContainsEmpty(s: string)
    ensures Contains(s, "")
  {
    assert OccursAt(s, "", 0);
  }

  // ---------------------------------------------------------------------------
  // `skip_to`

  /** The index of the first entry whose name contains `skipTo`, or the length when none does. */
  function FirstMatch(graphs: seq<Entry>, skipTo: string): (k: nat)
    ensures k <= |graphs|
    ensures forall j :: 0 <= j < k ==> !Contains(graphs[j].name, skipTo)
    ensures k < |graphs| ==> Contains(graphs[k].name, skipTo)
  {
    if graphs == [] then 0
    else if Contains(graphs[0].name, skipTo) then 0
    else 1 + FirstMatch(graphs[1..], skipTo)
  }

  /**
   * `enumerate().skip_while(..)`: the entries from the first one whose name contains `skipTo`,
   * each with its index in the full list.
   */
  function SkipTo(graphs: seq<Entry>, skipTo: string): (r: seq<(nat, Entry)>)
    ensures var k := FirstMatch(graphs, skipTo);
      |r| == |graphs| - k && forall j :: 0 <= j < |r| ==> r[j] == (k + j, graphs[k + j])
  {
    var k := FirstMatch(graphs, skipTo);
    seq(|graphs| - k, j requires 0 <= j < |graphs| - k => (k + j, graphs[k + j]))
  }

  /** Without `--skip-to` (the empty pattern) every graph is processed, with its own index. */
  lemma {:induction false} SkipToEmptyKeepsAll(graphs: seq<Entry>)
    ensures |SkipTo(graphs, "")| == |graphs|
    ensures forall j :: 0 <= j < |graphs| ==> SkipTo(graphs, "")[j] == (j, graphs[j])
  {
    if graphs != [] {
      ContainsEmpty(graphs[0].name);
    }
  }

  /** The skipped graphs are exactly those before the first name that matches. */
  lemma {:induction false} SkipToSkipsNonMatching(graphs: seq<Entry>, skipTo: string, j: nat)
    requires j < |graphs| && Contains(graphs[j].name, skipTo)
    ensures |SkipTo(graphs, skipTo)| >= |graphs| - j
    ensures SkipTo(graphs, skipTo) != [] && Contains(SkipTo(graphs, skipTo)[0].1.name, skipTo)
  {
  }

  // ---------------------------------------------------------------------------
  // The byte map

  /** Every `'\n'` byte becomes `' '`; the graph is then sent as a single line. */
  function NewlinesToSpaces(bytes: seq<byte>): (r: seq<byte>)
    ensures |r| == |bytes|
    ensures forall i :: 0 <= i < |r| ==> r[i] == (if bytes[i] == NEWLINE then SPACE else bytes[i])
  {
    seq(|bytes|, i requires 0 <= i < |bytes| => if bytes[i] == NEWLINE then SPACE else bytes[i])
  }

  /** Framed with one newline, the mapped bytes hold exactly one newline: the last byte. */
  lemma FramedIsOneLine(bytes: seq<byte>)
    ensures var line := NewlinesToSpaces(bytes) + [NEWLINE];
      line[|line| - 1] == NEWLINE && forall i :: 0 <= i < |line| - 1 ==> line[i] != NEWLINE
  {
  }

  /** The map changes nothing the second time, and nothing at all in a graph without newlines. */
  lemma NewlinesToSpacesIdempotent(bytes: seq<byte>)
    ensures NewlinesToSpaces(NewlinesToSpaces(bytes)) == NewlinesToSpaces(bytes)
    ensures NEWLINE !in bytes ==> NewlinesToSpaces(bytes) == bytes
  {
  }
}
