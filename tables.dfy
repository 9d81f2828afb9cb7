/** The table pattern of formatter_md.py, line 49:

      (?:\|[^\n]*\|\n)+(?:\|[-:| ]*\|\n)(?:\|[^\n]*\|\n)+

    A row is a line segment that starts with `|` where the match is tried and
    ends with `|` just before its `\n`. A separator row is itself a row, so the
    greedy first group swallows it and gives rows back until a separator is
    followed by at least one more row; the last group then takes every row
    that follows. The match therefore exists exactly when the maximal run of
    rows from the attempt position has a separator that is neither its first
    nor its last row, and it always ends with that run. */
module Tables {
  import opened Wrappers
  import opened Chars

  /** `\|[^\n]*\|\n` spanning `t[q..e]`. */
  predicate RowShape(t: string, q: nat, e: nat) {
    q + 3 <= e <= |t| && t[q] == '|' && AllIn(t, q + 1, e - 2, NotNewline) &&
    t[e - 2] == '|' && t[e - 1] == '\n'
  }

  /** `\|[-:| ]*\|\n` spanning `t[q..e]`. */
  predicate SeparatorShape(t: string, q: nat, e: nat) {
    q + 3 <= e <= |t| && t[q] == '|' &&
    (forall k | q + 1 <= k < e - 2 :: IsSeparatorChar(t[k])) &&
    t[e - 2] == '|' && t[e - 1] == '\n'
  }

  /** The engine on one row from `q`: the end of the row, if there is one. */
  function RowEnd(t: string, q: nat): (r: Option<nat>)
    requires q <= |t|
    ensures r.Some? ==> RowShape(t, q, r.value)
  {
    if q < |t| && t[q] == '|' then
      var n := LineEnd(t, q);
      if n < |t| && n >= q + 2 && t[n - 1] == '|' then Some(n + 1) else None
    else None
  }

  lemma RowEndExact(t: string, q: nat, e: nat)
    requires q <= |t|
    ensures RowEnd(t, q) == Some(e) <==> RowShape(t, q, e)
  {
    if RowShape(t, q, e) {
      SpanEndsAt(t, q, e - 1, NotNewline);
    }
  }

  lemma SeparatorIsRow(t: string, q: nat, e: nat)
    requires q <= |t| && SeparatorShape(t, q, e)
    ensures RowEnd(t, q) == Some(e)
  {
    RowEndExact(t, q, e);
  }

  /** One or more rows that start at `a` and end exactly at `b`. */
  predicate RowRun(t: string, a: nat, b: nat)
    requires a <= |t|
    decreases |t| - a
  {
    match RowEnd(t, a)
    case None => false
    case Some(m) => m == b || (m < b && RowRun(t, m, b))
  }

  /** The ends of the maximal run of rows that starts at `q`. */
  function RowEnds(t: string, q: nat): (r: seq<nat>)
    requires q <= |t|
    ensures forall k | 0 <= k < |r| :: q < r[k] <= |t|
    ensures r == [] <==> RowEnd(t, q).None?
    ensures r != [] ==> RowEnd(t, q) == Some(r[0]) && RowEnd(t, r[|r| - 1]).None?
    decreases |t| - q
  {
    match RowEnd(t, q)
    case None => []
    case Some(m) => [m] + RowEnds(t, m)
  }

  /** The run of rows from `q` continues, after its `j`-th row, as the run from
      that row's end. */
  lemma {:induction false} RowEndsSuffix(t: string, q: nat, j: nat)
    requires q <= |t| && j < |RowEnds(t, q)|
    ensures RowEnds(t, RowEnds(t, q)[j]) == RowEnds(t, q)[j + 1..]
    decreases j
  {
    var m := RowEnds(t, q)[0];
    if j > 0 {
      RowEndsSuffix(t, m, j - 1);
    }
  }

  /** Every prefix of the maximal run is a run of rows. */
  lemma {:induction false} RowEndsAreRuns(t: string, q: nat, j: nat)
    requires q <= |t| && j < |RowEnds(t, q)|
    ensures RowRun(t, q, RowEnds(t, q)[j])
    decreases j
  {
    var ends := RowEnds(t, q);
    if j > 0 {
      RowEndsAreRuns(t, ends[0], j - 1);
      assert ends[0] < ends[j];
    }
  }

  /** Every run of rows from `q` is a prefix of the maximal one. */
  lemma {:induction false} RunIsPrefix(t: string, q: nat, b: nat) returns (j: nat)
    requires q <= |t| && RowRun(t, q, b)
    ensures j < |RowEnds(t, q)| && RowEnds(t, q)[j] == b
    decreases |t| - q
  {
    var m := RowEnd(t, q).value;
    if m == b {
      j := 0;
    } else {
      var i := RunIsPrefix(t, m, b);
      j := i + 1;
    }
  }

  /** Some row from the `j`-th to the last but one of the run with ends
      `ends` (and ending just before them) is a separator row, `ends[j - 1]`
      being where the `j`-th row starts. */
  predicate SeparatorFrom(t: string, ends: seq<nat>, j: nat)
    requires 1 <= j
    decreases |ends| - j
  {
    j <= |ends| - 2 &&
    (SeparatorShape(t, ends[j - 1], ends[j]) || SeparatorFrom(t, ends, j + 1))
  }

  lemma {:induction false} SeparatorFromSound(t: string, ends: seq<nat>, j: nat) returns (k: nat)
    requires 1 <= j && SeparatorFrom(t, ends, j)
    ensures j <= k <= |ends| - 2 && SeparatorShape(t, ends[k - 1], ends[k])
    decreases |ends| - j
  {
    if SeparatorShape(t, ends[j - 1], ends[j]) {
      k := j;
    } else {
      k := SeparatorFromSound(t, ends, j + 1);
    }
  }

  lemma {:induction false} SeparatorFromComplete(t: string, ends: seq<nat>, j: nat, k: nat)
    requires 1 <= j <= k <= |ends| - 2 && SeparatorShape(t, ends[k - 1], ends[k])
    ensures SeparatorFrom(t, ends, j)
    decreases k - j
  {
    if j < k {
      SeparatorFromComplete(t, ends, j + 1, k);
    }
  }

  /** The textual table that starts at `p`, if any: the end of the match. */
  function TableAt(t: string, p: nat): (r: Option<nat>)
    requires p <= |t|
    ensures r.Some? ==> p < r.value <= |t| && RowEnd(t, r.value).None?
  {
    var ends := RowEnds(t, p);
    if SeparatorFrom(t, ends, 1) then Some(ends[|ends| - 1]) else None
  }

  /** A match is rows, then a separator row, then rows, and it is greedy: no
      row follows it. */
  lemma TableAtSound(t: string, p: nat)
    requires p <= |t| && TableAt(t, p).Some?
    ensures exists a: nat, b: nat ::
      a <= |t| && RowRun(t, p, a) && SeparatorShape(t, a, b) && RowRun(t, b, TableAt(t, p).value)
  {
    var ends := RowEnds(t, p);
    var j := SeparatorFromSound(t, ends, 1);
    var a, b := ends[j - 1], ends[j];
    RowEndsAreRuns(t, p, j - 1);
    RowEndsSuffix(t, p, j);
    RowEndsAreRuns(t, b, |ends| - 2 - j);
    assert RowEnds(t, b)[|ends| - 2 - j] == ends[|ends| - 1];
    assert RowRun(t, p, a) && SeparatorShape(t, a, b) && RowRun(t, b, TableAt(t, p).value);
  }

  /** Wherever rows, a separator row and rows follow each other from `p`,
      the attempt at `p` matches. */
  lemma TableAtComplete(t: string, p: nat, a: nat, b: nat, c: nat)
    requires p <= a <= |t| && RowRun(t, p, a) && SeparatorShape(t, a, b) && RowRun(t, b, c)
    ensures TableAt(t, p).Some?
  {
    var ends := RowEnds(t, p);
    var i := RunIsPrefix(t, p, a);
    RowEndsSuffix(t, p, i);
    SeparatorIsRow(t, a, b);
    assert ends[i + 1] == b;
    RowEndsSuffix(t, p, i + 1);
    assert RowEnds(t, b) != [];
    SeparatorFromComplete(t, ends, 1, i + 1);
  }
}
