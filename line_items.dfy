/** The three line-anchored patterns of the markdown scan (formatter_md.py,
    lines 26-28), all compiled with `re.MULTILINE`:

      titles           ^\s*#{1,6}\s+.+$
      ordered items    ^\s*\d+[.)]\s+.+
      unordered items  ^\s*[-*+]\s+.+

    Each matcher reproduces what Python's backtracking engine returns for a
    match attempt at one position. Because `\s` also matches `\n`, a match may
    begin with blank lines and its `\s+` may run across a line break. */
module LineItems {
  import opened Wrappers
  import opened Chars

  /** `^` under MULTILINE. */
  predicate AtLineStart(t: string, p: nat)
    requires p <= |t|
  {
    p == 0 || t[p - 1] == '\n'
  }

  /** `$` under MULTILINE. */
  predicate AtLineEnd(t: string, e: nat)
    requires e <= |t|
  {
    e == |t| || t[e] == '\n'
  }

  /** Where a line-item match splits: `t[p..a]` is the leading `\s*`,
      `t[a..b]` the marker (hashes, a number with its `.` or `)`, or a
      bullet), `t[b..c]` the `\s+` and `t[c..e]` the `.+`. */
  datatype Split = Split(a: nat, b: nat, c: nat, e: nat)

  /** `t[b..e]` is in the language of `\s+.+`, split at `c`. */
  predicate TailShape(t: string, b: nat, c: nat, e: nat) {
    b < c < e <= |t| && AllIn(t, b, c, Space) && AllIn(t, c, e, NotNewline)
  }

  predicate TitleShape(t: string, p: nat, s: Split) {
    p <= s.a < s.b && s.b - s.a <= 6 && TailShape(t, s.b, s.c, s.e) &&
    AllIn(t, p, s.a, Space) && AllIn(t, s.a, s.b, Hash)
  }

  predicate OrderedShape(t: string, p: nat, s: Split) {
    p <= s.a < s.b - 1 && TailShape(t, s.b, s.c, s.e) &&
    AllIn(t, p, s.a, Space) && AllIn(t, s.a, s.b - 1, Digit) &&
    (t[s.b - 1] == '.' || t[s.b - 1] == ')')
  }

  predicate IsBullet(c: char) {
    c == '-' || c == '*' || c == '+'
  }

  predicate UnorderedShape(t: string, p: nat, s: Split) {
    p <= s.a && s.b == s.a + 1 && TailShape(t, s.b, s.c, s.e) &&
    AllIn(t, p, s.a, Space) && IsBullet(t[s.a])
  }

  /** The largest position in `[lo, hi)` that does not hold `\n`. */
  function LastNonNewline(t: string, lo: nat, hi: nat): (r: Option<nat>)
    requires lo <= hi <= |t|
    ensures r.Some? ==> lo <= r.value < hi && t[r.value] != '\n'
    ensures r.Some? ==> forall k | r.value < k < hi :: t[k] == '\n'
    ensures r.None? ==> forall k | lo <= k < hi :: t[k] == '\n'
    decreases hi
  {
    if hi <= lo then None
    else if t[hi - 1] != '\n' then Some(hi - 1)
    else LastNonNewline(t, lo, hi - 1)
  }

  /** No `\s+.+` from `b` reaches past the line of the end `w` of the run
      of white space, when that run stops before the end of the text. */
  lemma TailWithinLine(t: string, b: nat, w: nat)
    requires b < w < |t| && w == Span(t, b, Space)
    ensures forall c: nat, e: nat | TailShape(t, b, c, e) :: e <= LineEnd(t, w)
  {
    forall c: nat, e: nat | TailShape(t, b, c, e)
      ensures e <= LineEnd(t, w)
    {
      SpanReaches(t, b, c, Space);
    }
  }

  /** No `\s+.+` from `b` reaches past the last non-newline `q`, when only
      newlines follow it. */
  lemma TailWithinLast(t: string, b: nat, q: nat)
    requires b < q < |t| && t[q] != '\n' && forall k | q < k < |t| :: t[k] == '\n'
    ensures forall c: nat, e: nat | TailShape(t, b, c, e) :: e <= q + 1
  {
    forall c: nat, e: nat | TailShape(t, b, c, e)
      ensures e <= q + 1
    {
      assert t[e - 1] != '\n';
    }
  }

  /** The engine on `\s+.+` from `b`: the greedy `\s+` takes the whole run of
      white space; only when that run reaches the end of the text does it
      give characters back, one at a time, until `.` can match. The result
      is `(c, e)`; the greedy `.+` always stops at the end of a line, and no
      `\s+.+` from `b` ends later. */
  function SpacesThenText(t: string, b: nat): (r: Option<(nat, nat)>)
    requires b <= |t|
    ensures r.Some? ==> TailShape(t, b, r.value.0, r.value.1) && AtLineEnd(t, r.value.1)
    ensures r.Some? ==> forall c: nat, e: nat | TailShape(t, b, c, e) :: e <= r.value.1
  {
    var w := Span(t, b, Space);
    if w == b then None
    else if w < |t| then
      TailWithinLine(t, b, w);
      Some((w, LineEnd(t, w)))
    else match LastNonNewline(t, b + 1, w)
      case None => None
      case Some(q) =>
        TailWithinLast(t, b, q);
        Some((q, LineEnd(t, q)))
  }

  lemma SpacesThenTextComplete(t: string, b: nat, c: nat, e: nat)
    requires TailShape(t, b, c, e)
    ensures SpacesThenText(t, b).Some?
  {
    var w := Span(t, b, Space);
    SpanReaches(t, b, c, Space);
    if w == |t| {
      assert t[e - 1] != '\n';
    }
  }

  /** In a title at `p`, the white space and the hashes are the greedy runs. */
  lemma TitleMarkerFixed(t: string, p: nat)
    requires p <= |t|
    ensures forall s | TitleShape(t, p, s) ::
      s.a == Span(t, p, Space) && s.b == Span(t, s.a, Hash)
  {
    forall s | TitleShape(t, p, s)
      ensures s.a == Span(t, p, Space) && s.b == Span(t, s.a, Hash)
    {
      assert t[s.a] == '#' && IsSpace(t[s.b]);
      SpanEndsAt(t, p, s.a, Space);
      SpanEndsAt(t, s.a, s.b, Hash);
    }
  }

  /** The match of the title pattern attempted at `p`, as Python's engine
      finds it: the title at `p` that ends last. */
  function TitleAt(t: string, p: nat): (r: Option<Split>)
    requires p <= |t|
    ensures r.Some? ==> AtLineStart(t, p) && TitleShape(t, p, r.value) && AtLineEnd(t, r.value.e)
    ensures r.Some? ==> forall s | TitleShape(t, p, s) :: s.e <= r.value.e
  {
    if !AtLineStart(t, p) then None
    else
      TitleMarkerFixed(t, p);
      var a := Span(t, p, Space);
      var b := Span(t, a, Hash);
      // More than six hashes leave a `#` where `\s+` must start.
      if b == a || b - a > 6 then None
      else match SpacesThenText(t, b)
        case None => None
        case Some(ce) => Some(Split(a, b, ce.0, ce.1))
  }

  /** In an ordered item at `p`, the white space and the digits are the
      greedy runs, so its tail starts one past the digits. */
  lemma OrderedMarkerFixed(t: string, p: nat)
    requires p <= |t|
    ensures forall s | OrderedShape(t, p, s) ::
      TailShape(t, Span(t, Span(t, p, Space), Digit) + 1, s.c, s.e)
  {
    forall s | OrderedShape(t, p, s)
      ensures TailShape(t, Span(t, Span(t, p, Space), Digit) + 1, s.c, s.e)
    {
      assert IsDigit(t[s.a]);
      SpanEndsAt(t, p, s.a, Space);
      SpanEndsAt(t, s.a, s.b - 1, Digit);
    }
  }

  /** The ordered-item pattern attempted at `p`: the item at `p` that ends
      last. */
  function OrderedItemAt(t: string, p: nat): (r: Option<Split>)
    requires p <= |t|
    ensures r.Some? ==> AtLineStart(t, p) && OrderedShape(t, p, r.value) && AtLineEnd(t, r.value.e)
    ensures r.Some? ==> forall s | OrderedShape(t, p, s) :: s.e <= r.value.e
  {
    if !AtLineStart(t, p) then None
    else
      OrderedMarkerFixed(t, p);
      var a := Span(t, p, Space);
      var d := Span(t, a, Digit);
      if d == a || d == |t| || !(t[d] == '.' || t[d] == ')') then None
      else match SpacesThenText(t, d + 1)
        case None => None
        case Some(ce) => Some(Split(a, d + 1, ce.0, ce.1))
  }

  /** In an unordered item at `p`, the white space is the greedy run. */
  lemma UnorderedMarkerFixed(t: string, p: nat)
    requires p <= |t|
    ensures forall s | UnorderedShape(t, p, s) :: s.a == Span(t, p, Space)
  {
    forall s | UnorderedShape(t, p, s)
      ensures s.a == Span(t, p, Space)
    {
      SpanEndsAt(t, p, s.a, Space);
    }
  }

  /** The unordered-item pattern attempted at `p`: the item at `p` that ends
      last. */
  function UnorderedItemAt(t: string, p: nat): (r: Option<Split>)
    requires p <= |t|
    ensures r.Some? ==> AtLineStart(t, p) && UnorderedShape(t, p, r.value) && AtLineEnd(t, r.value.e)
    ensures r.Some? ==> forall s | UnorderedShape(t, p, s) :: s.e <= r.value.e
  {
    if !AtLineStart(t, p) then None
    else
      UnorderedMarkerFixed(t, p);
      var a := Span(t, p, Space);
      if a == |t| || !IsBullet(t[a]) then None
      else match SpacesThenText(t, a + 1)
        case None => None
        case Some(ce) => Some(Split(a, a + 1, ce.0, ce.1))
  }

  /** The engine misses no title: wherever a line start is followed by text
      of the title pattern's shape, the attempt at that position succeeds. */
  lemma TitleAtComplete(t: string, p: nat, s: Split)
    requires p <= |t| && AtLineStart(t, p) && TitleShape(t, p, s)
    ensures TitleAt(t, p).Some?
  {
    assert t[s.a] == '#';
    SpanEndsAt(t, p, s.a, Space);
    assert IsSpace(t[s.b]);
    SpanEndsAt(t, s.a, s.b, Hash);
    SpacesThenTextComplete(t, s.b, s.c, s.e);
  }

  lemma OrderedItemAtComplete(t: string, p: nat, s: Split)
    requires p <= |t| && AtLineStart(t, p) && OrderedShape(t, p, s)
    ensures OrderedItemAt(t, p).Some?
  {
    assert IsDigit(t[s.a]);
    SpanEndsAt(t, p, s.a, Space);
    SpanEndsAt(t, s.a, s.b - 1, Digit);
    SpacesThenTextComplete(t, s.b, s.c, s.e);
  }

  lemma UnorderedItemAtComplete(t: string, p: nat, s: Split)
    requires p <= |t| && AtLineStart(t, p) && UnorderedShape(t, p, s)
    ensures UnorderedItemAt(t, p).Some?
  {
    SpanEndsAt(t, p, s.a, Space);
    SpacesThenTextComplete(t, s.b, s.c, s.e);
  }
}
