/** What the formatter finds in a page's raw text before pairing anything:
    `_count_markdown_elements`, `_extract_tables` and `_extract_images`
    (formatter_md.py, lines 24-63). Each is a `findall` of the patterns in
    module Patterns; none of them changes anything. */
module Scanner {
  import opened Wrappers
  import opened Patterns
  import LineItems
  import Links
  import Tables
  import Images

  datatype Link = Link(text: string, url: string)

  /** The dictionary that `_count_markdown_elements` returns. */
  datatype MarkdownElements = MarkdownElements(titles: seq<string>, lists: seq<string>, links: seq<Link>)

  /** `findall` of a pattern without groups: the matched texts. */
  function MatchedTexts(a: seq<Option<Hit>>, t: string): (r: seq<string>)
    requires Advancing(a) && |a| == |t|
    ensures |r| == |FindAll(a)|
  {
    var fs := FindAll(a);
    OrderedBounds(fs, 0, |a|);
    seq(|fs|, k requires 0 <= k < |fs| => t[fs[k].start..fs[k].end])
  }

  /** The markdown links `[text](url)`, in document order. */
  function MarkdownLinks(t: string): (r: seq<Link>)
    ensures |r| == |FindAll(Patterns.MarkdownLinkAttempts(t))|
  {
    var fs := FindAll(Patterns.MarkdownLinkAttempts(t));
    FindFromMatches(Patterns.MarkdownLinkAttempts(t), 0);
    seq(|fs|, k requires 0 <= k < |fs| => Link(fs[k].groups[0], fs[k].groups[1]))
  }

  /** The autolinks `<http(s)://...>`, each with its URL as its text. */
  function AutoLinks(t: string): (r: seq<Link>)
    ensures |r| == |FindAll(Patterns.AutoLinkAttempts(t))|
  {
    var fs := FindAll(Patterns.AutoLinkAttempts(t));
    FindFromMatches(Patterns.AutoLinkAttempts(t), 0);
    seq(|fs|, k requires 0 <= k < |fs| => Link(fs[k].groups[0], fs[k].groups[0]))
  }

  /** `_count_markdown_elements`: titles; ordered then unordered list items;
      markdown links then autolinks. An empty result is the empty sequence. */
  function CountMarkdownElements(t: string): (r: MarkdownElements)
    ensures |r.titles| == |FindAll(Patterns.Titles(t))|
    ensures |r.lists| == |FindAll(Patterns.OrderedItems(t))| + |FindAll(Patterns.UnorderedItems(t))|
    ensures |r.links| == |FindAll(Patterns.MarkdownLinkAttempts(t))| + |FindAll(Patterns.AutoLinkAttempts(t))|
    ensures forall k | |FindAll(Patterns.MarkdownLinkAttempts(t))| <= k < |r.links| :: r.links[k].text == r.links[k].url
  {
    MarkdownElements(
      MatchedTexts(Patterns.Titles(t), t),
      MatchedTexts(Patterns.OrderedItems(t), t) + MatchedTexts(Patterns.UnorderedItems(t), t),
      MarkdownLinks(t) + AutoLinks(t))
  }

  /** `_extract_tables`: the texts of the table blocks, in document order. */
  function ExtractTables(t: string): (r: seq<string>)
    ensures |r| == |FindAll(Patterns.TableBlocks(t))|
  {
    MatchedTexts(Patterns.TableBlocks(t), t)
  }

  /** `_extract_images`: for each image match, in document order, the pair
      of groups `findall` reports: the markdown image's data URI and the
      `<img>` tag's, one of them "". */
  function ExtractImages(t: string): (r: seq<(string, string)>)
    ensures |r| == |FindAll(Patterns.EmbeddedImages(t))|
  {
    var fs := FindAll(Patterns.EmbeddedImages(t));
    FindFromMatches(Patterns.EmbeddedImages(t), 0);
    seq(|fs|, k requires 0 <= k < |fs| => (fs[k].groups[0], fs[k].groups[1]))
  }

  // ---------------------------------------------------------------------
  // What each scanned item is: the text or the groups of one match, at
  // the position `re.findall` reports it (see Patterns.FindAllIsScan for
  // their order and that none is missed).
  // ---------------------------------------------------------------------

  /** Title `k` is the text of the `k`-th title match: at a line start,
      white space, one to six `#`, white space and a rest of line. */
  lemma TitleIsMatch(t: string, k: nat)
    requires k < |FindAll(Patterns.Titles(t))|
    ensures var m := FindAll(Patterns.Titles(t))[k];
      m.start < m.end <= |t| && CountMarkdownElements(t).titles[k] == t[m.start..m.end] &&
      LineItems.AtLineStart(t, m.start) &&
      (exists s: LineItems.Split :: LineItems.TitleShape(t, m.start, s) && s.e == m.end) &&
      forall s: LineItems.Split | LineItems.TitleShape(t, m.start, s) :: s.e <= m.end
  {
    var a := Patterns.Titles(t);
    FindFromMatches(a, 0);
    OrderedBounds(FindAll(a), 0, |a|);
    var m := FindAll(a)[k];
    var s := LineItems.TitleAt(t, m.start).value;
    assert LineItems.TitleShape(t, m.start, s) && s.e == m.end;
  }

  /** List item `k`, for `k` below the number of ordered items, is the text
      of the `k`-th ordered-item match: white space, digits, `.` or `)`,
      white space and text. */
  lemma OrderedItemIsMatch(t: string, k: nat)
    requires k < |FindAll(Patterns.OrderedItems(t))|
    ensures var m := FindAll(Patterns.OrderedItems(t))[k];
      m.start < m.end <= |t| && CountMarkdownElements(t).lists[k] == t[m.start..m.end] &&
      LineItems.AtLineStart(t, m.start) &&
      (exists s: LineItems.Split :: LineItems.OrderedShape(t, m.start, s) && s.e == m.end) &&
      forall s: LineItems.Split | LineItems.OrderedShape(t, m.start, s) :: s.e <= m.end
  {
    var a := Patterns.OrderedItems(t);
    FindFromMatches(a, 0);
    OrderedBounds(FindAll(a), 0, |a|);
    var m := FindAll(a)[k];
    var s := LineItems.OrderedItemAt(t, m.start).value;
    assert LineItems.OrderedShape(t, m.start, s) && s.e == m.end;
  }

  /** The list items after the ordered ones are the texts of the
      unordered-item matches: white space, one of `-`, `*`, `+`, white
      space and text. */
  lemma UnorderedItemIsMatch(t: string, k: nat)
    requires k < |FindAll(Patterns.UnorderedItems(t))|
    ensures var m := FindAll(Patterns.UnorderedItems(t))[k];
      m.start < m.end <= |t| &&
      CountMarkdownElements(t).lists[|FindAll(Patterns.OrderedItems(t))| + k] == t[m.start..m.end] &&
      LineItems.AtLineStart(t, m.start) &&
      (exists s: LineItems.Split :: LineItems.UnorderedShape(t, m.start, s) && s.e == m.end) &&
      forall s: LineItems.Split | LineItems.UnorderedShape(t, m.start, s) :: s.e <= m.end
  {
    var a := Patterns.UnorderedItems(t);
    FindFromMatches(a, 0);
    OrderedBounds(FindAll(a), 0, |a|);
    var m := FindAll(a)[k];
    var s := LineItems.UnorderedItemAt(t, m.start).value;
    assert LineItems.UnorderedShape(t, m.start, s) && s.e == m.end;
  }

  /** A markdown-link attempt that matches has the link's text and URL as
      its groups. */
  lemma LinkHitGroups(t: string, p: nat)
    requires p <= |t| && MarkdownLinkHit(t, p).Some?
    ensures var h := MarkdownLinkHit(t, p).value;
      exists s: Links.LinkSplit :: Links.LinkShape(t, p, s) && s.end == h.end &&
        h.groups == [t[p + 1..s.close], t[s.close + 2..s.end - 1]]
  {
    var s := Links.MarkdownLinkAt(t, p).value;
    assert Links.LinkShape(t, p, s);
  }

  /** Link `k`, for `k` below the number of markdown links, is the `k`-th
      markdown link `[text](url)`, with its text and URL. */
  lemma MarkdownLinkIsMatch(t: string, k: nat)
    requires k < |FindAll(Patterns.MarkdownLinkAttempts(t))|
    ensures var m := FindAll(Patterns.MarkdownLinkAttempts(t))[k];
      m.start < |t| &&
      exists s: Links.LinkSplit :: Links.LinkShape(t, m.start, s) && s.end == m.end &&
        CountMarkdownElements(t).links[k] == Link(t[m.start + 1..s.close], t[s.close + 2..s.end - 1])
  {
    var a := Patterns.MarkdownLinkAttempts(t);
    FindFromMatches(a, 0);
    var m := FindAll(a)[k];
    assert MarkdownLinkHit(t, m.start) == Some(Hit(m.end, m.groups));
    LinkHitGroups(t, m.start);
    assert CountMarkdownElements(t).links[k] == Link(m.groups[0], m.groups[1]);
  }

  /** An autolink attempt that matches has the URL between the angle
      brackets as its one group. */
  lemma AutoLinkHitGroups(t: string, p: nat)
    requires p <= |t| && AutoLinkHit(t, p).Some?
    ensures var h := AutoLinkHit(t, p).value;
      Links.AutoLinkShape(t, p, h.end) && p + 1 <= h.end - 1 && h.groups == [t[p + 1..h.end - 1]]
  {
  }

  /** The links after the markdown ones are the autolinks, in order (see
      AutoLinkIsMatch for what each is). */
  lemma AutoLinksFollow(t: string, k: nat)
    requires k < |FindAll(Patterns.AutoLinkAttempts(t))|
    ensures CountMarkdownElements(t).links[|FindAll(Patterns.MarkdownLinkAttempts(t))| + k] == AutoLinks(t)[k]
  {
    var md, auto := MarkdownLinks(t), AutoLinks(t);
    assert (md + auto)[|md| + k] == auto[k];
  }

  /** Autolink `k` is the `k`-th autolink `<http(s)://...>`, with the URL
      between the angle brackets as text and URL. */
  lemma AutoLinkIsMatch(t: string, k: nat)
    requires k < |FindAll(Patterns.AutoLinkAttempts(t))|
    ensures var m := FindAll(Patterns.AutoLinkAttempts(t))[k];
      m.start < |t| && Links.AutoLinkShape(t, m.start, m.end) && m.start + 1 <= m.end - 1 &&
      AutoLinks(t)[k] == Link(t[m.start + 1..m.end - 1], t[m.start + 1..m.end - 1])
  {
    var a := Patterns.AutoLinkAttempts(t);
    FindFromMatches(a, 0);
    var m := FindAll(a)[k];
    assert AutoLinkHit(t, m.start) == Some(Hit(m.end, m.groups));
    AutoLinkHitGroups(t, m.start);
  }

  /** Table `k` is the text of the `k`-th table block: rows, a separator
      row and rows, the last row being the last of the run. */
  lemma ExtractedTableIsBlock(t: string, k: nat)
    requires k < |ExtractTables(t)|
    ensures var m := FindAll(Patterns.TableBlocks(t))[k];
      m.start < m.end <= |t| && ExtractTables(t)[k] == t[m.start..m.end] &&
      Tables.RowEnd(t, m.end).None? &&
      exists a: nat, b: nat :: a <= |t| && Tables.RowRun(t, m.start, a) &&
        Tables.SeparatorShape(t, a, b) && Tables.RowRun(t, b, m.end)
  {
    var a := Patterns.TableBlocks(t);
    FindFromMatches(a, 0);
    OrderedBounds(FindAll(a), 0, |a|);
    var m := FindAll(a)[k];
    assert Tables.TableAt(t, m.start) == Some(m.end);
    Tables.TableAtSound(t, m.start);
  }

  /** An image attempt that matches has exactly one non-empty group: the
      data URI of a markdown image, or else that of an `<img>` tag. */
  lemma ImageHitGroups(t: string, p: nat)
    requires p <= |t| && EmbeddedImageHit(t, p).Some?
    ensures var g := EmbeddedImageHit(t, p).value.groups;
      (g[0] == "" <==> g[1] != "") &&
      (g[0] != "" ==> exists s: Images.MdSplit ::
        Images.MdImageShape(t, p, s, false) && g[0] == t[s.altEnd + 2..s.uri.end]) &&
      (g[1] != "" ==> (Images.MarkdownImageAt(t, p, false).None? &&
        exists h: Images.HtmlSplit :: Images.HtmlImageShape(t, p, h) && g[1] == t[h.src + 5..h.uri.end]))
  {
    match Images.MarkdownImageAt(t, p, false)
    case Some(s) =>
      assert Images.MdImageShape(t, p, s, false);
    case None =>
      var h := Images.HtmlImageAt(t, p).value;
      assert Images.HtmlImageShape(t, p, h);
  }

  /** Image `k` is the `k`-th image match: exactly one of its two groups is
      non-empty, the first for a markdown image (its data URI) and the
      second for an `<img>` tag where no markdown image starts. */
  lemma ExtractedImageIsMatch(t: string, k: nat)
    requires k < |FindAll(Patterns.EmbeddedImages(t))|
    ensures var m := FindAll(Patterns.EmbeddedImages(t))[k];
      m.start < |t| && |m.groups| == 2 && ExtractImages(t)[k] == (m.groups[0], m.groups[1]) &&
      EmbeddedImageHit(t, m.start) == Some(Hit(m.end, m.groups))
  {
    FindFromMatches(Patterns.EmbeddedImages(t), 0);
  }
}
