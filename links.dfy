/** The two link patterns of the markdown scan (formatter_md.py, lines 31
    and 35):

      markdown links   \[([^\]]+)\]\(([^)]+)\)
      autolinks        <(https?://[^>]+)>

    Neither pattern can backtrack into a different split, so each attempt
    has at most one match, and the matchers below characterise it exactly. */
module Links {
  import opened Wrappers
  import opened Chars

  /** A markdown link at `p`: `t[close]` is its `]` and `t[end - 1]` its `)`;
      group 1 is `t[p + 1..close]` and group 2 is `t[close + 2..end - 1]`. */
  datatype LinkSplit = LinkSplit(close: nat, end: nat)

  predicate LinkShape(t: string, p: nat, s: LinkSplit) {
    p + 1 < s.close && s.close + 3 < s.end <= |t| &&
    t[p] == '[' && AllIn(t, p + 1, s.close, NotCloseBracket) &&
    t[s.close] == ']' && t[s.close + 1] == '(' &&
    AllIn(t, s.close + 2, s.end - 1, NotCloseParen) && t[s.end - 1] == ')'
  }

  function MarkdownLinkAt(t: string, p: nat): (r: Option<LinkSplit>)
    requires p <= |t|
    ensures r.Some? ==> LinkShape(t, p, r.value)
  {
    if p < |t| && t[p] == '[' then
      var close := Span(t, p + 1, NotCloseBracket);
      if close == p + 1 || close + 1 >= |t| || t[close + 1] != '(' then None
      else
        var u := Span(t, close + 2, NotCloseParen);
        if u == close + 2 || u == |t| then None else Some(LinkSplit(close, u + 1))
    else None
  }

  /** The attempt at `p` finds exactly the markdown links that start at `p`. */
  lemma MarkdownLinkAtExact(t: string, p: nat, s: LinkSplit)
    requires p <= |t|
    ensures MarkdownLinkAt(t, p) == Some(s) <==> LinkShape(t, p, s)
  {
    if LinkShape(t, p, s) {
      SpanEndsAt(t, p + 1, s.close, NotCloseBracket);
      SpanEndsAt(t, s.close + 2, s.end - 1, NotCloseParen);
    }
  }

  /** The part after the scheme: `[^>]+>` from `k` up to `e`. */
  predicate UrlRest(t: string, k: nat, e: nat) {
    k < e - 1 && e <= |t| && AllIn(t, k, e - 1, NotGreater) && t[e - 1] == '>'
  }

  /** An autolink spanning `t[p..e]`; its group is `t[p + 1..e - 1]`. */
  predicate AutoLinkShape(t: string, p: nat, e: nat) {
    p < |t| && t[p] == '<' &&
    ((LiteralAt(t, p + 1, "http://") && UrlRest(t, p + 8, e)) ||
     (LiteralAt(t, p + 1, "https://") && UrlRest(t, p + 9, e)))
  }

  function AutoLinkAt(t: string, p: nat): (r: Option<nat>)
    requires p <= |t|
    ensures r.Some? ==> AutoLinkShape(t, p, r.value)
  {
    if p < |t| && t[p] == '<' then
      // `s?` is greedy, and giving the `s` back leaves it where `:` must be.
      var k := if LiteralAt(t, p + 1, "https://") then p + 9
               else if LiteralAt(t, p + 1, "http://") then p + 8
               else 0;
      if k == 0 then None
      else
        var g := Span(t, k, NotGreater);
        if g == k || g == |t| then None else Some(g + 1)
    else None
  }

  /** The attempt at `p` finds exactly the autolinks that start at `p`. */
  lemma AutoLinkAtExact(t: string, p: nat, e: nat)
    requires p <= |t|
    ensures AutoLinkAt(t, p) == Some(e) <==> AutoLinkShape(t, p, e)
  {
    if AutoLinkShape(t, p, e) {
      if LiteralAt(t, p + 1, "https://") {
        assert t[p + 5] == 's';
        SpanEndsAt(t, p + 9, e - 1, NotGreater);
      } else {
        SpanEndsAt(t, p + 8, e - 1, NotGreater);
      }
    }
  }
}
