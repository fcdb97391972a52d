/** The handful of `str` operations of the Rust standard library that the harness relies on. */
module Text {

  /** `char::is_whitespace`: the Unicode White_Space property. */
  predicate IsWhitespace(c: char)
  {
    c == ' ' || ('\t' <= c <= '\r') || c == '\U{85}' || c == '\U{A0}' || c == '\U{1680}'
    || ('\U{2000}' <= c <= '\U{200A}') || c == '\U{2028}' || c == '\U{2029}'
    || c == '\U{202F}' || c == '\U{205F}' || c == '\U{3000}'
  }

  /** `u8::is_ascii_whitespace`: space, tab, line feed, form feed, carriage return (not vertical tab). */
  predicate IsAsciiWhitespace(c: char)
  {
    c == ' ' || c == '\t' || c == '\n' || c == '\U{0C}' || c == '\r'
  }

  lemma AsciiWhitespaceIsWhitespace(c: char)
    ensures IsAsciiWhitespace(c) ==> IsWhitespace(c)
  {
  }

  predicate IsBlank(s: string)
  {
    forall k :: 0 <= k < |s| ==> IsWhitespace(s[k])
  }

  /** `str::trim_end`: drop the trailing whitespace. */
  function TrimEnd(s: string): (r: string)
    ensures r <= s
    ensures forall k :: |r| <= k < |s| ==> IsWhitespace(s[k])
    ensures r == [] || !IsWhitespace(r[|r| - 1])
  {
    if s != [] && IsWhitespace(s[|s| - 1]) then TrimEnd(s[..|s| - 1]) else s
  }

  /** `str::trim_start`: drop the leading whitespace. */
  function TrimStart(s: string): (r: string)
    ensures |r| <= |s| && r == s[|s| - |r|..]
    ensures forall k :: 0 <= k < |s| - |r| ==> IsWhitespace(s[k])
    ensures r == [] || !IsWhitespace(r[0])
  {
    if s != [] && IsWhitespace(s[0]) then TrimStart(s[1..]) else s
  }

  /** `str::trim`. */
  function Trim(s: string): string
  {
    TrimEnd(TrimStart(s))
  }

  predicate IsAsciiBlank(s: string)
  {
    forall k :: 0 <= k < |s| ==> IsAsciiWhitespace(s[k])
  }

  /** `r` is the slice of `s` at `i`, with only ASCII whitespace of `s` before and after it. */
  predicate AsciiTrimmedAt(s: string, r: string, i: nat)
  {
    i + |r| <= |s| && r == s[i..i + |r|] && IsAsciiBlank(s[..i]) && IsAsciiBlank(s[i + |r|..])
  }

  /** `str::trim_ascii`: drop leading and trailing ASCII whitespace only. */
  function TrimAscii(s: string): (r: string)
    ensures exists i :: AsciiTrimmedAt(s, r, i)
    ensures r == [] || (!IsAsciiWhitespace(r[0]) && !IsAsciiWhitespace(r[|r| - 1]))
  {
    TrimAsciiSlice(s);
    TrimAsciiEnd(TrimAsciiStart(s))
  }

  function TrimAsciiStart(s: string): (r: string)
    ensures |r| <= |s| && r == s[|s| - |r|..]
    ensures IsAsciiBlank(s[..|s| - |r|])
    ensures r == [] || !IsAsciiWhitespace(r[0])
  {
    if s != [] && IsAsciiWhitespace(s[0]) then
      var r := TrimAsciiStart(s[1..]);
      assert s[..|s| - |r|] == [s[0]] + s[1..][..|s| - 1 - |r|];
      r
    else
      assert s[..0] == [];
      s
  }

  function TrimAsciiEnd(s: string): (r: string)
    ensures r <= s
    ensures IsAsciiBlank(s[|r|..])
    ensures r == [] || !IsAsciiWhitespace(r[|r| - 1])
  {
    if s != [] && IsAsciiWhitespace(s[|s| - 1]) then
      var r := TrimAsciiEnd(s[..|s| - 1]);
      assert s[|r|..] == s[..|s| - 1][|r|..] + [s[|s| - 1]];
      r
    else
      assert s[|s|..] == [];
      s
  }

  lemma TrimAsciiSlice(s: string)
    ensures AsciiTrimmedAt(s, TrimAsciiEnd(TrimAsciiStart(s)), |s| - |TrimAsciiStart(s)|)
  {
    var t := TrimAsciiStart(s);
    var r := TrimAsciiEnd(t);
    var d := |s| - |t|;
    assert r == t[..|r|];
    assert r == s[d..d + |r|];
    assert IsAsciiBlank(s[..d]);
    assert s[d + |r|..] == t[|r|..];
    assert IsAsciiBlank(s[d + |r|..]);
    assert AsciiTrimmedAt(s, r, d);
  }

  /**
   * The trimmed string is determined by what `trim_ascii` promises: any slice of `s` with only
   * ASCII whitespace around it and none at its own ends is `TrimAscii(s)`.
   */
  lemma TrimAsciiIsUnique(s: string, r: string, i: nat)
    requires AsciiTrimmedAt(s, r, i)
    requires r == [] || (!IsAsciiWhitespace(r[0]) && !IsAsciiWhitespace(r[|r| - 1]))
    ensures r == TrimAscii(s)
  {
    var t := TrimAscii(s);
    var j :| AsciiTrimmedAt(s, t, j);
    SameTrimmedSlice(s, r, i, t, j);
  }

  /** Two ASCII-trimmed slices of `s` without whitespace at their ends are equal. */
  lemma SameTrimmedSlice(s: string, r: string, i: nat, t: string, j: nat)
    requires AsciiTrimmedAt(s, r, i) && AsciiTrimmedAt(s, t, j)
    requires r == [] || (!IsAsciiWhitespace(r[0]) && !IsAsciiWhitespace(r[|r| - 1]))
    requires t == [] || (!IsAsciiWhitespace(t[0]) && !IsAsciiWhitespace(t[|t| - 1]))
    ensures r == t
  {
    if |r| > 0 {
      var last := i + |r| - 1;
      assert s[i] == r[0] && s[last] == r[|r| - 1];
      InsideTrimmed(s, t, j, i);
      InsideTrimmed(s, t, j, last);
    }
    if |t| > 0 {
      var last := j + |t| - 1;
      assert s[j] == t[0] && s[last] == t[|t| - 1];
      InsideTrimmed(s, r, i, j);
      InsideTrimmed(s, r, i, last);
    }
  }

  /** A character of `s` that is not ASCII whitespace lies inside every ASCII-trimmed slice of `s`. */
  lemma InsideTrimmed(s: string, t: string, j: nat, k: nat)
    requires AsciiTrimmedAt(s, t, j)
    requires k < |s| && !IsAsciiWhitespace(s[k])
    ensures j <= k < j + |t|
  {
  }

  /** Trailing whitespace is trimmed from the second part alone when that part is not blank. */
  lemma {:induction false} TrimEndKeepsPrefix(a: string, c: string)
    requires TrimEnd(c) != []
    ensures TrimEnd(a + c) == a + TrimEnd(c)
    decreases |c|
  {
    var s := a + c;
    assert s[|s| - 1] == c[|c| - 1];
    if IsWhitespace(c[|c| - 1]) {
      assert s[..|s| - 1] == a + c[..|c| - 1];
      TrimEndKeepsPrefix(a, c[..|c| - 1]);
    }
  }

  lemma TrimEndEmptyIffBlank(t: string)
    ensures TrimEnd(t) == [] <==> IsBlank(t)
  {
  }

  lemma TrimStartKeepsBlank(s: string)
    ensures IsBlank(TrimStart(s)) <==> IsBlank(s)
  {
    var t := TrimStart(s);
    var d := |s| - |t|;
    if t != [] {
      assert t[0] == s[d];
    }
  }

  /** A string trimmed of whitespace is empty exactly when the string is blank. */
  lemma {:induction false} TrimEmptyIffBlank(s: string)
    ensures Trim(s) == [] <==> IsBlank(s)
  {
    TrimEndEmptyIffBlank(TrimStart(s));
    TrimStartKeepsBlank(s);
  }

  /** Trimming is the identity on a string whose ends are not whitespace. */
  lemma TrimAsciiUntouched(s: string)
    requires s == [] || (!IsAsciiWhitespace(s[0]) && !IsAsciiWhitespace(s[|s| - 1]))
    ensures TrimAscii(s) == s
  {
  }

  predicate OccursAt(s: string, f: string, i: nat)
  {
    i + |f| <= |s| && s[i..i + |f|] == f
  }

  /** `str::contains` with a string pattern: `f` occurs somewhere in `s` (the empty pattern always does). */
  function Contains(s: string, f: string): (r: bool)
    ensures r <==> exists i: nat :: OccursAt(s, f, i)
  {
    if f <= s then
      assert OccursAt(s, f, 0);
      true
    else if s == [] then
      assert forall i: nat :: !OccursAt(s, f, i);
      false
    else
      var rest := Contains(s[1..], f);
      assert forall i: nat :: OccursAt(s[1..], f, i) <==> OccursAt(s, f, i + 1) by {
        forall i: nat ensures OccursAt(s[1..], f, i) <==> OccursAt(s, f, i + 1) {
          if i + 1 + |f| <= |s| {
            assert s[1..][i..i + |f|] == s[i + 1..i + 1 + |f|];
          }
        }
      }
      assert !OccursAt(s, f, 0);
      assert (exists i: nat :: OccursAt(s, f, i)) ==> exists i: nat :: OccursAt(s[1..], f, i) by {
        if exists i: nat :: OccursAt(s, f, i) {
          var i: nat :| OccursAt(s, f, i);
          assert i > 0;
          assert OccursAt(s[1..], f, i - 1);
        }
      }
      rest
  }
}
