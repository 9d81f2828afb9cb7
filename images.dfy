/** The image patterns of formatter_md.py. The extraction at line 59 (no
    DOTALL) uses

      !\[.*?\]\((data:image\/[^;]+;base64,[^)]+)\)
      | <img[^>]*src="(data:image\/[^;]+;base64,[^"]+)"[^>]*>

    and the rewrite at line 94 uses the first alternative alone, with DOTALL,
    so that its lazy alt text may also run across line breaks. */
module Images {
  import opened Wrappers
  import opened Chars

  /** A data URI `data:image/<subtype>;base64,<payload>` that starts at some
      position `d`: `t[semi]` is its `;`, and it ends just before `end`. */
  datatype UriSplit = UriSplit(semi: nat, end: nat)

  /** `data:image\/[^;]+;base64,` then one or more `stop` characters. */
  predicate DataUriShape(t: string, d: nat, u: UriSplit, stop: CharClass) {
    d + 11 < u.semi && u.semi + 8 < u.end <= |t| &&
    LiteralAt(t, d, "data:image/") && AllIn(t, d + 11, u.semi, NotSemicolon) &&
    LiteralAt(t, u.semi, ";base64,") && AllIn(t, u.semi + 8, u.end, stop)
  }

  /** The engine on a data URI from `d`, up to the character that closes it
      (the first one outside `stop`, which must exist). */
  function DataUriAt(t: string, d: nat, stop: CharClass): (r: Option<UriSplit>)
    requires d <= |t|
    ensures r.Some? ==> DataUriShape(t, d, r.value, stop) && r.value.end < |t|
    ensures r.Some? ==> !InClass(stop, t[r.value.end])
  {
    if !LiteralAt(t, d, "data:image/") then None
    else
      var semi := Span(t, d + 11, NotSemicolon);
      if semi == d + 11 || !LiteralAt(t, semi, ";base64,") then None
      else
        var end := Span(t, semi + 8, stop);
        if end == semi + 8 || end == |t| then None else Some(UriSplit(semi, end))
  }

  lemma DataUriAtExact(t: string, d: nat, u: UriSplit, stop: CharClass)
    requires d <= |t| && DataUriShape(t, d, u, stop)
    requires u.end < |t| && !InClass(stop, t[u.end])
    ensures DataUriAt(t, d, stop) == Some(u)
  {
    assert t[u.semi] == ';';
    SpanEndsAt(t, d + 11, u.semi, NotSemicolon);
    SpanEndsAt(t, u.semi + 8, u.end, stop);
  }

  // ---------------------------------------------------------------------
  // Markdown images: !\[.*?\]\((data:...)\)
  // ---------------------------------------------------------------------

  /** A markdown image at some `p`: `t[altEnd]` is the `]` after the alt text
      and `uri` the data URI that follows `](`; the match ends at `uri.end + 1`. */
  datatype MdSplit = MdSplit(altEnd: nat, uri: UriSplit)

  /** What follows the alt text, `\]\((data:...)\)`, tried at `e`. */
  function MdTailAt(t: string, e: nat): (r: Option<UriSplit>)
    requires e <= |t|
    ensures r.Some? ==> LiteralAt(t, e, "](") && DataUriShape(t, e + 2, r.value, NotCloseParen)
    ensures r.Some? ==> r.value.end < |t| && t[r.value.end] == ')'
  {
    if LiteralAt(t, e, "](") then DataUriAt(t, e + 2, NotCloseParen) else None
  }

  /** The lazy `.*?`: the shortest alt text, from `e` on, after which the
      rest of the pattern matches. Without DOTALL it cannot cross `\n`. */
  function LazyAlt(t: string, e: nat, dotAll: bool): (r: Option<MdSplit>)
    requires e <= |t|
    ensures r.Some? ==> e <= r.value.altEnd <= |t| && MdTailAt(t, r.value.altEnd) == Some(r.value.uri)
    ensures r.Some? && !dotAll ==> AllIn(t, e, r.value.altEnd, NotNewline)
    ensures r.Some? ==> forall k | e <= k < r.value.altEnd :: MdTailAt(t, k).None?
    decreases |t| - e
  {
    match MdTailAt(t, e)
    case Some(u) => Some(MdSplit(e, u))
    case None =>
      if e < |t| && (dotAll || t[e] != '\n') then LazyAlt(t, e + 1, dotAll) else None
  }

  predicate MdImageShape(t: string, p: nat, s: MdSplit, dotAll: bool) {
    LiteralAt(t, p, "![") && p + 2 <= s.altEnd <= |t| &&
    (!dotAll ==> AllIn(t, p + 2, s.altEnd, NotNewline)) &&
    MdTailAt(t, s.altEnd) == Some(s.uri)
  }

  /** The markdown-image alternative attempted at `p`. The alt text it picks
      is the shortest one that works. */
  function MarkdownImageAt(t: string, p: nat, dotAll: bool): (r: Option<MdSplit>)
    requires p <= |t|
    ensures r.Some? ==> MdImageShape(t, p, r.value, dotAll)
    ensures r.Some? ==> forall k | p + 2 <= k < r.value.altEnd :: MdTailAt(t, k).None?
  {
    if LiteralAt(t, p, "![") then LazyAlt(t, p + 2, dotAll) else None
  }

  lemma {:induction false} LazyAltReaches(t: string, e: nat, dotAll: bool, s: MdSplit)
    requires e <= s.altEnd <= |t| && MdTailAt(t, s.altEnd) == Some(s.uri)
    requires !dotAll ==> AllIn(t, e, s.altEnd, NotNewline)
    ensures LazyAlt(t, e, dotAll).Some? && LazyAlt(t, e, dotAll).value.altEnd <= s.altEnd
    decreases s.altEnd - e
  {
    if e < s.altEnd && MdTailAt(t, e).None? {
      LazyAltReaches(t, e + 1, dotAll, s);
    }
  }

  /** Wherever a markdown image starts, the attempt there matches, with an
      alt text no longer than that image's. */
  lemma MarkdownImageAtComplete(t: string, p: nat, s: MdSplit, dotAll: bool)
    requires p <= |t| && MdImageShape(t, p, s, dotAll)
    ensures MarkdownImageAt(t, p, dotAll).Some?
    ensures MarkdownImageAt(t, p, dotAll).value.altEnd <= s.altEnd
  {
    LazyAltReaches(t, p + 2, dotAll, s);
  }

  // ---------------------------------------------------------------------
  // HTML images: <img[^>]*src="(data:...)"[^>]*>
  // ---------------------------------------------------------------------

  /** An `<img>` tag at some `p`: `t[src..]` starts with `src="`, `uri` is the
      data URI after it, and the tag ends just before `end`. */
  datatype HtmlSplit = HtmlSplit(src: nat, uri: UriSplit, end: nat)

  /** `src="(data:...)"[^>]*>` tried at `s`. */
  function SrcAt(t: string, s: nat): (r: Option<HtmlSplit>)
    requires s <= |t|
    ensures r.Some? ==> r.value.src == s && LiteralAt(t, s, "src=\"")
    ensures r.Some? ==> DataUriShape(t, s + 5, r.value.uri, NotQuote)
    ensures r.Some? ==> r.value.uri.end < |t| && t[r.value.uri.end] == '"'
    ensures r.Some? ==> r.value.uri.end + 1 < r.value.end <= |t|
    ensures r.Some? ==> AllIn(t, r.value.uri.end + 1, r.value.end - 1, NotGreater) && t[r.value.end - 1] == '>'
  {
    if !LiteralAt(t, s, "src=\"") then None
    else match DataUriAt(t, s + 5, NotQuote)
      case None => None
      case Some(u) =>
        var g := Span(t, u.end + 1, NotGreater);
        if g == |t| then None else Some(HtmlSplit(s, u, g + 1))
  }

  /** No attempt of `src="...` matches at a position in `(a, b]`. */
  predicate NoSrcIn(t: string, a: nat, b: nat)
    requires b <= |t|
    decreases b
  {
    b <= a || (SrcAt(t, b).None? && NoSrcIn(t, a, b - 1))
  }

  lemma {:induction false} NoSrcInAt(t: string, a: nat, b: nat, k: nat)
    requires b <= |t| && NoSrcIn(t, a, b) && a < k <= b
    ensures SrcAt(t, k).None?
    decreases b
  {
    if k < b {
      NoSrcInAt(t, a, b - 1, k);
    }
  }

  /** The greedy `[^>]*` after `<img`: it gives back one character at a time
      from `s` down to `lo` until `src="...` matches, so the `src="` it
      settles on is the last one up to `s` that works. */
  function GreedySrc(t: string, lo: nat, s: nat): (r: Option<HtmlSplit>)
    requires lo <= s <= |t|
    ensures r.Some? ==> lo <= r.value.src <= s && SrcAt(t, r.value.src) == Some(r.value)
    ensures r.Some? ==> NoSrcIn(t, r.value.src, s)
    decreases s
  {
    var here := SrcAt(t, s);
    if here.Some? then here
    else if s == lo then None
    else GreedySrc(t, lo, s - 1)
  }

  predicate HtmlImageShape(t: string, p: nat, h: HtmlSplit) {
    LiteralAt(t, p, "<img") && p + 4 <= h.src <= |t| && AllIn(t, p + 4, h.src, NotGreater) &&
    SrcAt(t, h.src) == Some(h)
  }

  /** The `<img>` alternative attempted at `p`. Of the `src="` attributes
      inside the tag, the greedy `[^>]*` makes it take the last that works. */
  function HtmlImageAt(t: string, p: nat): (r: Option<HtmlSplit>)
    requires p <= |t|
    ensures r.Some? ==> HtmlImageShape(t, p, r.value)
    ensures r.Some? ==> NoSrcIn(t, r.value.src, Span(t, p + 4, NotGreater))
  {
    if LiteralAt(t, p, "<img") then GreedySrc(t, p + 4, Span(t, p + 4, NotGreater)) else None
  }

  lemma {:induction false} GreedySrcReaches(t: string, lo: nat, s: nat, h: HtmlSplit)
    requires lo <= h.src <= s <= |t| && SrcAt(t, h.src) == Some(h)
    ensures GreedySrc(t, lo, s).Some? && GreedySrc(t, lo, s).value.src >= h.src
    decreases s
  {
    if SrcAt(t, s).None? {
      GreedySrcReaches(t, lo, s - 1, h);
    }
  }

  /** Wherever an `<img>` tag with a data URI starts, the attempt there
      matches, at that `src=` or a later one. */
  lemma HtmlImageAtComplete(t: string, p: nat, h: HtmlSplit)
    requires p <= |t| && HtmlImageShape(t, p, h)
    ensures HtmlImageAt(t, p).Some? && HtmlImageAt(t, p).value.src >= h.src
  {
    SpanReaches(t, p + 4, h.src, NotGreater);
    GreedySrcReaches(t, p + 4, Span(t, p + 4, NotGreater), h);
  }
}
