/** The regular expressions of formatter_md.py as one family, with the two
    operations the formatter applies to them: `re.findall` (lines 26-35, 51,
    60) and `re.sub` (line 94). None of the patterns matches the empty
    string, so both scans move on to the end of each match, or one character
    further when the attempt fails. */
module Patterns {
  import opened Wrappers
  import LineItems
  import Links
  import Tables
  import Images

  /** A successful attempt: where the match ends and its capture groups, a
      group that did not take part being "" as `findall` reports it. */
  datatype Hit = Hit(end: nat, groups: seq<string>)

  /** `^\s*#{1,6}\s+.+$` with MULTILINE, no group. */
  function TitleHit(t: string, p: nat): (r: Option<Hit>)
    requires p <= |t|
    ensures r.Some? ==> p < r.value.end <= |t| && r.value.groups == []
  {
    match LineItems.TitleAt(t, p)
    case None => None
    case Some(s) => Some(Hit(s.e, []))
  }

  /** `^\s*\d+[.)]\s+.+` with MULTILINE, no group. */
  function OrderedItemHit(t: string, p: nat): (r: Option<Hit>)
    requires p <= |t|
    ensures r.Some? ==> p < r.value.end <= |t| && r.value.groups == []
  {
    match LineItems.OrderedItemAt(t, p)
    case None => None
    case Some(s) => Some(Hit(s.e, []))
  }

  /** `^\s*[-*+]\s+.+` with MULTILINE, no group. */
  function UnorderedItemHit(t: string, p: nat): (r: Option<Hit>)
    requires p <= |t|
    ensures r.Some? ==> p < r.value.end <= |t| && r.value.groups == []
  {
    match LineItems.UnorderedItemAt(t, p)
    case None => None
    case Some(s) => Some(Hit(s.e, []))
  }

  /** `\[([^\]]+)\]\(([^)]+)\)`: the link text and the URL. */
  function MarkdownLinkHit(t: string, p: nat): (r: Option<Hit>)
    requires p <= |t|
    ensures r.Some? ==> p < r.value.end <= |t| && |r.value.groups| == 2
  {
    match Links.MarkdownLinkAt(t, p)
    case None => None
    case Some(s) => Some(Hit(s.end, [t[p + 1..s.close], t[s.close + 2..s.end - 1]]))
  }

  /** `<(https?://[^>]+)>`: the URL. */
  function AutoLinkHit(t: string, p: nat): (r: Option<Hit>)
    requires p <= |t|
    ensures r.Some? ==> p < r.value.end <= |t| && |r.value.groups| == 1
  {
    match Links.AutoLinkAt(t, p)
    case None => None
    case Some(e) => Some(Hit(e, [t[p + 1..e - 1]]))
  }

  /** `(?:\|[^\n]*\|\n)+(?:\|[-:| ]*\|\n)(?:\|[^\n]*\|\n)+`, no group. */
  function TableHit(t: string, p: nat): (r: Option<Hit>)
    requires p <= |t|
    ensures r.Some? ==> p < r.value.end <= |t| && r.value.groups == []
  {
    match Tables.TableAt(t, p)
    case None => None
    case Some(e) => Some(Hit(e, []))
  }

  /** The image pattern of `_extract_images`, without DOTALL: a markdown
      image's data URI and an `<img>` tag's, one of the two "". */
  function EmbeddedImageHit(t: string, p: nat): (r: Option<Hit>)
    requires p <= |t|
    ensures r.Some? ==> p < r.value.end <= |t| && |r.value.groups| == 2
  {
    match Images.MarkdownImageAt(t, p, false)
    case Some(s) => Some(Hit(s.uri.end + 1, [t[s.altEnd + 2..s.uri.end], ""]))
    case None =>
      match Images.HtmlImageAt(t, p)
      case None => None
      case Some(h) => Some(Hit(h.end, ["", t[h.src + 5..h.uri.end]]))
  }

  /** The markdown image pattern of the rewrite, with DOTALL: the data URI. */
  function MarkdownImageHit(t: string, p: nat): (r: Option<Hit>)
    requires p <= |t|
    ensures r.Some? ==> p < r.value.end <= |t| && |r.value.groups| == 1
    ensures r.Some? ==> t[p] == '!'
  {
    match Images.MarkdownImageAt(t, p, true)
    case None => None
    case Some(s) => Some(Hit(s.uri.end + 1, [t[s.altEnd + 2..s.uri.end]]))
  }

  // ---------------------------------------------------------------------
  // The attempts of each pattern at every position of a text. The scans
  // below read the text only through such a sequence.
  // ---------------------------------------------------------------------

  function Titles(t: string): (a: seq<Option<Hit>>)
    ensures |a| == |t| && Advancing(a)
    ensures forall q | 0 <= q < |t| :: a[q] == TitleHit(t, q)
  {
    seq(|t|, q requires 0 <= q < |t| => TitleHit(t, q))
  }

  function OrderedItems(t: string): (a: seq<Option<Hit>>)
    ensures |a| == |t| && Advancing(a)
    ensures forall q | 0 <= q < |t| :: a[q] == OrderedItemHit(t, q)
  {
    seq(|t|, q requires 0 <= q < |t| => OrderedItemHit(t, q))
  }

  function UnorderedItems(t: string): (a: seq<Option<Hit>>)
    ensures |a| == |t| && Advancing(a)
    ensures forall q | 0 <= q < |t| :: a[q] == UnorderedItemHit(t, q)
  {
    seq(|t|, q requires 0 <= q < |t| => UnorderedItemHit(t, q))
  }

  function MarkdownLinkAttempts(t: string): (a: seq<Option<Hit>>)
    ensures |a| == |t| && Advancing(a)
    ensures forall q | 0 <= q < |t| :: a[q] == MarkdownLinkHit(t, q)
  {
    seq(|t|, q requires 0 <= q < |t| => MarkdownLinkHit(t, q))
  }

  function AutoLinkAttempts(t: string): (a: seq<Option<Hit>>)
    ensures |a| == |t| && Advancing(a)
    ensures forall q | 0 <= q < |t| :: a[q] == AutoLinkHit(t, q)
  {
    seq(|t|, q requires 0 <= q < |t| => AutoLinkHit(t, q))
  }

  function TableBlocks(t: string): (a: seq<Option<Hit>>)
    ensures |a| == |t| && Advancing(a)
    ensures forall q | 0 <= q < |t| :: a[q] == TableHit(t, q)
  {
    seq(|t|, q requires 0 <= q < |t| => TableHit(t, q))
  }

  function EmbeddedImages(t: string): (a: seq<Option<Hit>>)
    ensures |a| == |t| && Advancing(a)
    ensures forall q | 0 <= q < |t| :: a[q] == EmbeddedImageHit(t, q)
  {
    seq(|t|, q requires 0 <= q < |t| => EmbeddedImageHit(t, q))
  }

  function MarkdownImages(t: string): (a: seq<Option<Hit>>)
    ensures |a| == |t| && Advancing(a)
    ensures forall q | 0 <= q < |t| :: a[q] == MarkdownImageHit(t, q)
  {
    seq(|t|, q requires 0 <= q < |t| => MarkdownImageHit(t, q))
  }

  /** One match reported by a scan: where it starts and ends, and its groups. */
  datatype Found = Found(start: nat, end: nat, groups: seq<string>)

  /** The matches lie in `[p, n)`, each non-empty and starting where or after
      the previous one ends. */
  predicate Ordered(fs: seq<Found>, p: nat, n: nat)
    decreases |fs|
  {
    fs == [] || (p <= fs[0].start < fs[0].end <= n && Ordered(fs[1..], fs[0].end, n))
  }

  /** Ordered matches lie in `[p, n)` and do not overlap. */
  lemma {:induction false} OrderedBounds(fs: seq<Found>, p: nat, n: nat)
    requires Ordered(fs, p, n)
    ensures forall k | 0 <= k < |fs| :: p <= fs[k].start < fs[k].end <= n
    ensures forall i, j | 0 <= i < j < |fs| :: fs[i].end <= fs[j].start
    decreases |fs|
  {
    if fs != [] {
      OrderedBounds(fs[1..], fs[0].end, n);
      assert forall k | 0 < k < |fs| :: fs[k] == fs[1..][k - 1];
    }
  }

  /** Position `q` lies inside one of the matches, or is where it starts. */
  predicate Covered(fs: seq<Found>, q: nat) {
    exists k | 0 <= k < |fs| :: fs[k].start <= q < fs[k].end
  }

  /** Every successful attempt consumes at least one character. */
  predicate Advancing(a: seq<Option<Hit>>) {
    forall q | 0 <= q < |a| :: a[q].Some? ==> q < a[q].value.end <= |a|
  }

  /** The scan of `re.findall` from position `p`: a match is reported and
      the scan goes on at its end; elsewhere it moves one character on. */
  function FindFrom(a: seq<Option<Hit>>, p: nat): (r: seq<Found>)
    requires Advancing(a) && p <= |a|
    ensures Ordered(r, p, |a|)
    decreases |a| - p
  {
    if p == |a| then []
    else match a[p]
      case Some(h) =>
        var rest := FindFrom(a, h.end);
        var r := [Found(p, h.end, h.groups)] + rest;
        assert r[1..] == rest;
        r
      case None =>
        FindFrom(a, p + 1)
  }

  /** Every match the scan reports is the attempt at its start. */
  lemma {:induction false} FindFromMatches(a: seq<Option<Hit>>, p: nat)
    requires Advancing(a) && p <= |a|
    ensures forall k | 0 <= k < |FindFrom(a, p)| ::
      FindFrom(a, p)[k].start < |a| && a[FindFrom(a, p)[k].start] == Some(Hit(FindFrom(a, p)[k].end, FindFrom(a, p)[k].groups))
    decreases |a| - p
  {
    if p < |a| {
      match a[p]
      case Some(h) =>
        FindFromMatches(a, h.end);
        var rest := FindFrom(a, h.end);
        assert FindFrom(a, p) == [Found(p, h.end, h.groups)] + rest;
        assert forall k | 0 < k < |FindFrom(a, p)| :: FindFrom(a, p)[k] == rest[k - 1];
      case None =>
        FindFromMatches(a, p + 1);
    }
  }

  /** The scan skips no position where the pattern matches, unless a match
      it reported covers that position. */
  lemma {:induction false} FindFromComplete(a: seq<Option<Hit>>, p: nat)
    requires Advancing(a) && p <= |a|
    ensures forall q | p <= q < |a| :: a[q].Some? ==> Covered(FindFrom(a, p), q)
    decreases |a| - p
  {
    if p < |a| {
      var r := FindFrom(a, p);
      match a[p]
      case Some(h) =>
        FindFromComplete(a, h.end);
        var rest := FindFrom(a, h.end);
        assert r == [Found(p, h.end, h.groups)] + rest;
        forall q | p <= q < |a| && a[q].Some? ensures Covered(r, q) {
          if q < h.end {
            assert r[0].start <= q < r[0].end;
          } else {
            var k :| 0 <= k < |rest| && rest[k].start <= q < rest[k].end;
            assert r[k + 1] == rest[k];
          }
        }
      case None =>
        FindFromComplete(a, p + 1);
    }
  }

  /** `re.findall`: the scan from the start of the text. */
  function FindAll(a: seq<Option<Hit>>): (r: seq<Found>)
    requires Advancing(a)
    ensures Ordered(r, 0, |a|)
  {
    FindFrom(a, 0)
  }

  /** `re.findall` reports its matches in document order, without overlap,
      each the attempt at its start, and misses none. */
  lemma FindAllIsScan(a: seq<Option<Hit>>)
    requires Advancing(a)
    ensures forall k | 0 <= k < |FindAll(a)| :: FindAll(a)[k].start < FindAll(a)[k].end <= |a|
    ensures forall i, j | 0 <= i < j < |FindAll(a)| :: FindAll(a)[i].end <= FindAll(a)[j].start
    ensures forall k | 0 <= k < |FindAll(a)| ::
      a[FindAll(a)[k].start] == Some(Hit(FindAll(a)[k].end, FindAll(a)[k].groups))
    ensures forall q | 0 <= q < |a| :: a[q].Some? ==> Covered(FindAll(a), q)
  {
    OrderedBounds(FindAll(a), 0, |a|);
    FindFromMatches(a, 0);
    FindFromComplete(a, 0);
  }

  /** The number of characters the matches of `fs` cover. */
  function MatchedLength(fs: seq<Found>): nat
    decreases |fs|
  {
    if fs == [] then 0 else (if fs[0].start <= fs[0].end then fs[0].end - fs[0].start else 0) + MatchedLength(fs[1..])
  }

  /** The text from `p` with every match of `fs` replaced by `repl` and the
      gaps between them copied: each match's characters give way to one
      copy of `repl`. */
  function Splice(t: string, p: nat, fs: seq<Found>, repl: string): (r: string)
    requires p <= |t| && Ordered(fs, p, |t|)
    ensures p + MatchedLength(fs) <= |t|
    ensures |r| + MatchedLength(fs) == (|t| - p) + |fs| * |repl|
    decreases |fs|
  {
    if fs == [] then t[p..]
    else t[p..fs[0].start] + repl + Splice(t, fs[0].end, fs[1..], repl)
  }

  /** A character before the first match is copied as it is. */
  lemma SpliceCopiesGap(t: string, p: nat, fs: seq<Found>, repl: string)
    requires p < |t| && Ordered(fs, p + 1, |t|)
    ensures Splice(t, p, fs, repl) == [t[p]] + Splice(t, p + 1, fs, repl)
  {
    if fs == [] {
      assert t[p..] == [t[p]] + t[p + 1..];
    } else {
      var s, rest := fs[0].start, Splice(t, fs[0].end, fs[1..], repl);
      assert t[p..s] == [t[p]] + t[p + 1..s];
      assert Splice(t, p, fs, repl) == ([t[p]] + t[p + 1..s]) + repl + rest;
      assert ([t[p]] + t[p + 1..s]) + repl + rest == [t[p]] + (t[p + 1..s] + repl + rest);
    }
  }

  /** The scan of `re.sub` from position `p`, with a replacement free of
      group references: a match is replaced by `repl` and the scan goes on
      at its end; elsewhere one character is copied. It replaces exactly the
      matches the `re.findall` scan from `p` reports, and copies the text
      between them. */
  function SubFrom(a: seq<Option<Hit>>, t: string, p: nat, repl: string): (r: string)
    requires Advancing(a) && |a| == |t| && p <= |t|
    ensures r == Splice(t, p, FindFrom(a, p), repl)
    decreases |t| - p
  {
    if p == |t| then []
    else match a[p]
      case Some(h) =>
        assert FindFrom(a, p)[1..] == FindFrom(a, h.end);
        repl + SubFrom(a, t, h.end, repl)
      case None =>
        SpliceCopiesGap(t, p, FindFrom(a, p + 1), repl);
        [t[p]] + SubFrom(a, t, p + 1, repl)
  }

  /** `re.sub(pattern, repl, t)`, given the attempts of the pattern on `t`:
      every match `re.findall` reports replaced by `repl`, the text between
      them copied. */
  function Sub(a: seq<Option<Hit>>, t: string, repl: string): (r: string)
    requires Advancing(a) && |a| == |t|
    ensures r == Splice(t, 0, FindAll(a), repl)
  {
    SubFrom(a, t, 0, repl)
  }
}
