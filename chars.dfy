/** Character classes and small string scans shared by the pattern matchers. */
module Chars {

  /** Python's `\s` on `str` patterns (and what `str.strip()` removes): the
      characters for which `str.isspace()` holds. It takes in the newline,
      so `\s` runs cross lines; no marker character of a title, a list item
      or a table row is white space. */
  predicate IsSpace(c: char)
    ensures c == '\n' ==> IsSpace(c)
    ensures IsSpace(c) ==> !('0' <= c <= '9') && c != '#' && c != '-' && c != '*' && c != '+' && c != '|'
  {
    c == ' ' || ('\t' <= c <= '\r') || ('\U{1c}' <= c <= '\U{1f}') ||
    c == '\U{85}' || c == '\U{a0}' || c == '\U{1680}' ||
    ('\U{2000}' <= c <= '\U{200a}') || c == '\U{2028}' || c == '\U{2029}' ||
    c == '\U{202f}' || c == '\U{205f}' || c == '\U{3000}'
  }

  /** `\d`, restricted to the ASCII digits. */
  predicate IsDigit(c: char) {
    '0' <= c <= '9'
  }

  /** The characters allowed inside a table separator row: `[-:| ]`. */
  predicate IsSeparatorChar(c: char) {
    c == '|' || c == '-' || c == ':' || c == ' '
  }

  /** The character classes that the source's patterns repeat with `*` or `+`. */
  datatype CharClass =
    | Space            // \s
    | Digit            // \d
    | Hash             // #
    | NotNewline       // .  and [^\n]
    | NotCloseBracket  // [^\]]
    | NotCloseParen    // [^)]
    | NotSemicolon     // [^;]
    | NotGreater       // [^>]
    | NotQuote         // [^"]

  predicate InClass(cls: CharClass, c: char) {
    match cls
    case Space => IsSpace(c)
    case Digit => IsDigit(c)
    case Hash => c == '#'
    case NotNewline => c != '\n'
    case NotCloseBracket => c != ']'
    case NotCloseParen => c != ')'
    case NotSemicolon => c != ';'
    case NotGreater => c != '>'
    case NotQuote => c != '"'
  }

  /** Every character of `t[lo..hi]` belongs to `cls`. */
  predicate AllIn(t: string, lo: nat, hi: nat, cls: CharClass)
    requires lo <= hi <= |t|
  {
    forall k | lo <= k < hi :: InClass(cls, t[k])
  }

  /** The end of the longest run of `cls` characters starting at `p`: what a
      greedy `cls*` consumes before it would have to backtrack. */
  function Span(t: string, p: nat, cls: CharClass): (q: nat)
    requires p <= |t|
    ensures p <= q <= |t|
    ensures AllIn(t, p, q, cls)
    ensures q < |t| ==> !InClass(cls, t[q])
    decreases |t| - p
  {
    if p < |t| && InClass(cls, t[p]) then Span(t, p + 1, cls) else p
  }

  /** A greedy run reaches at least as far as any run of `cls` characters. */
  lemma {:induction false} SpanReaches(t: string, p: nat, q: nat, cls: CharClass)
    requires p <= q <= |t| && AllIn(t, p, q, cls)
    ensures Span(t, p, cls) >= q
    decreases q - p
  {
    if p < q {
      SpanReaches(t, p + 1, q, cls);
    }
  }

  /** A run of `cls` characters that cannot be extended is the greedy run. */
  lemma SpanEndsAt(t: string, p: nat, q: nat, cls: CharClass)
    requires p <= q <= |t| && AllIn(t, p, q, cls)
    requires q == |t| || !InClass(cls, t[q])
    ensures Span(t, p, cls) == q
  {
    SpanReaches(t, p, q, cls);
  }

  /** The end of the line that contains position `p`: the first `\n` at or
      after `p`, or the end of the text. */
  function LineEnd(t: string, p: nat): (q: nat)
    requires p <= |t|
    ensures p <= q <= |t|
    ensures q == |t| || t[q] == '\n'
    ensures forall k | p <= k < q :: t[k] != '\n'
  {
    Span(t, p, NotNewline)
  }

  /** `t` holds `w` at position `p`. */
  predicate LiteralAt(t: string, p: nat, w: string) {
    p + |w| <= |t| && t[p..p + |w|] == w
  }

  /** `s.lstrip()`: `s` without its leading white space. */
  function StripStart(s: string): (r: string)
    ensures |r| <= |s| && r == s[|s| - |r|..]
    ensures forall k | 0 <= k < |s| - |r| :: IsSpace(s[k])
    ensures r != [] ==> !IsSpace(r[0])
    decreases |s|
  {
    if s != [] && IsSpace(s[0]) then StripStart(s[1..]) else s
  }

  /** `s.rstrip()`: `s` without its trailing white space. */
  function StripEnd(s: string): (r: string)
    ensures |r| <= |s| && r == s[..|r|]
    ensures forall k | |r| <= k < |s| :: IsSpace(s[k])
    ensures r != [] ==> !IsSpace(r[|r| - 1])
    decreases |s|
  {
    if s != [] && IsSpace(s[|s| - 1]) then StripEnd(s[..|s| - 1]) else s
  }

  /** `s.strip()`: `s` without its leading and trailing white space. */
  function Strip(s: string): (r: string)
    ensures r != [] ==> !IsSpace(r[0]) && !IsSpace(r[|r| - 1])
  {
    StripEnd(StripStart(s))
  }

  /** Empty or white space only: what makes `text.strip()` empty. */
  predicate IsBlank(s: string)
    ensures IsBlank(s) <==> Strip(s) == []
  {
    forall k | 0 <= k < |s| :: IsSpace(s[k])
  }

  /** `s.split("=")[0]`: the part of `s` before its first `=`. */
  function BeforeFirstEquals(s: string): (r: string)
    ensures r <= s
    ensures '=' !in r
    ensures |r| < |s| ==> s[|r|] == '='
  {
    if s == [] || s[0] == '=' then [] else [s[0]] + BeforeFirstEquals(s[1..])
  }
}
