/** How the formatter pairs the structurally detected tables and images of a
    page with the ones it found in the text (formatter_md.py, lines 73-105):
    by position, the i-th structural entry with the i-th textual match. The
    functions give the lists after the first `n` iterations of each loop;
    method FormatterMD.FormatItem runs the loops against them. */
module Pairing {
  import opened Wrappers
  import opened Chars
  import opened Records
  import opened Patterns

  // ---------------------------------------------------------------------
  // Tables
  // ---------------------------------------------------------------------

  /** Structural table `i` with the `i`-th table block found, or `None`. */
  function PairedTable(st: StructuralTable, found: seq<string>, i: nat): (r: Table)
    ensures r.bbox == st.bbox && r.rows == st.rows && r.columns == st.columns
    ensures r.content.Some? <==> i < |found|
    ensures r.content.Some? ==> r.content.value == found[i]
  {
    Table(st.bbox, st.rows, st.columns, if i < |found| then Some(found[i]) else None)
  }

  /** `tables_with_content` after the first `n` structural tables. Its length
      follows the structural list, never the number of blocks found: missing
      blocks give `None` and extra blocks are dropped. */
  function TablesUpTo(structural: seq<StructuralTable>, found: seq<string>, n: nat): (r: seq<Table>)
    requires n <= |structural|
    ensures |r| == n
    ensures forall i | 0 <= i < n ::
      r[i].bbox == structural[i].bbox && r[i].rows == structural[i].rows &&
      r[i].columns == structural[i].columns
    ensures forall i | 0 <= i < n :: r[i].content == (if i < |found| then Some(found[i]) else None)
  {
    if n == 0 then [] else TablesUpTo(structural, found, n - 1) + [PairedTable(structural[n - 1], found, n - 1)]
  }

  // ---------------------------------------------------------------------
  // Images
  // ---------------------------------------------------------------------

  /** The content paired with structural image `i`: the markdown group of the
      `i`-th image match, "" when there is none or it was an `<img>` tag. */
  function PairedContent(found: seq<(string, string)>, i: nat): (r: string)
    ensures i < |found| ==> r == found[i].0
    ensures i >= |found| ==> r == ""
  {
    if i < |found| && found[i].0 != "" then found[i].0 else ""
  }

  /** The stored form of a non-empty content: the part before its first `=`,
      then one `=`, whether or not the content had any. */
  function Truncated(content: string): (r: string)
    ensures |r| >= 1 && r[|r| - 1] == '='
    ensures |r| - 1 <= |content| && forall k {:trigger r[k]} | 0 <= k < |r| - 1 :: r[k] == content[k] && r[k] != '='
    ensures |r| - 1 < |content| ==> content[|r| - 1] == '='
  {
    var head := BeforeFirstEquals(content);
    assert (head + "=")[..|head|] == head;
    head + "="
  }

  /** The hash of a content: the MD5 hexdigest of a non-empty one, else `None`. */
  function ContentHash(md5: string -> Digest, content: string): (r: Option<string>)
    ensures r.Some? <==> content != ""
    ensures r.Some? ==> |r.value| == 32
  {
    if content != "" then Some(HexDigest(md5(content))) else None
  }

  /** The hash of a non-empty content is made of lower-case hexadecimal
      digits and decodes back to its MD5 digest: equal hashes mean equal
      digests. */
  lemma ContentHashDecodes(md5: string -> Digest, content: string)
    requires content != ""
    ensures forall k | 0 <= k < |ContentHash(md5, content).value| :: IsLowerHex(ContentHash(md5, content).value[k])
    ensures Unhex(ContentHash(md5, content).value) == md5(content)
  {
    HexDigestRoundTrip(md5(content));
  }

  /** Structural image `si` with its content stored and hashed: it keeps the
      structural fields; it has a hash, of 32 lower-case hex digits, and a
      stored content exactly when its content is non-empty. */
  function PairedImage(si: StructuralImage, content: string, md5: string -> Digest): (r: Image)
    ensures r.number == si.number && r.bbox == si.bbox && r.width == si.width && r.height == si.height
    ensures r.hash.Some? <==> content != ""
    ensures r.base64 == "" <==> content == ""
    ensures r.hash.Some? ==> |r.hash.value| == 32
    ensures r.base64 == (if content != "" then Truncated(content) else "")
    ensures r.hash == ContentHash(md5, content)
  {
    Image(si.number, si.bbox, si.width, si.height,
          if content != "" then Truncated(content) else "", ContentHash(md5, content))
  }

  /** The reference that replaces a markdown image in the text: it is no
      markdown image itself, and the hash can be read back from it. */
  function ReferenceToken(hash: string): (r: string)
    ensures |r| == |hash| + 9 && r[0] == '[' && r[|r| - 1] == ')'
    ensures r[8..|r| - 1] == hash
  {
    "[IMAGE](" + hash + ")"
  }

  /** The text after one iteration of the image loop: every markdown image
      replaced by a reference to this content's hash, when the content is
      non-empty and images are not kept inline; a text without markdown
      images is left as it is. */
  function RewriteStep(text: string, content: string, keepInline: bool, md5: string -> Digest): (r: string)
    ensures content != "" && !keepInline ==>
      r == Splice(text, 0, FindAll(MarkdownImages(text)), ReferenceToken(HexDigest(md5(content))))
    ensures content == "" || keepInline || FindAll(MarkdownImages(text)) == [] ==> r == text
  {
    if content != "" && !keepInline
    then Sub(MarkdownImages(text), text, ReferenceToken(HexDigest(md5(content))))
    else text
  }

  /** A rewrite step that finds a markdown image changes the text: where the
      first image's `!` stood, the reference's `[` stands now. */
  lemma RewriteChangesText(text: string, content: string, md5: string -> Digest)
    requires content != "" && FindAll(MarkdownImages(text)) != []
    ensures RewriteStep(text, content, false, md5) != text
  {
    var fs := FindAll(MarkdownImages(text));
    var repl := ReferenceToken(HexDigest(md5(content)));
    FindFromMatches(MarkdownImages(text), 0);
    OrderedBounds(fs, 0, |text|);
    var f := fs[0];
    var r := RewriteStep(text, content, false, md5);
    assert text[f.start] == '!';
    assert r == text[..f.start] + repl + Splice(text, f.end, fs[1..], repl);
    assert r[f.start] == '[';
  }

  /** `images_with_content` after the first `n` structural images: one entry
      per structural image, whatever the number of images found. */
  function PairedImages(structural: seq<StructuralImage>, found: seq<(string, string)>, n: nat,
                        md5: string -> Digest): (r: seq<Image>)
    requires n <= |structural|
    ensures |r| == n
  {
    if n == 0 then [] else PairedImages(structural, found, n - 1, md5) + [PairedImage(structural[n - 1], PairedContent(found, n - 1), md5)]
  }

  /** One image of the list: the one at index `i`. */
  lemma {:induction false} PairedImageAtIndex(structural: seq<StructuralImage>, found: seq<(string, string)>, n: nat,
                                              md5: string -> Digest, i: nat)
    requires i < n <= |structural|
    ensures PairedImages(structural, found, n, md5)[i] == PairedImage(structural[i], PairedContent(found, i), md5)
  {
    if i < n - 1 {
      PairedImageAtIndex(structural, found, n - 1, md5, i);
    }
  }

  /** Image `i` of the list is structural image `i` paired with the `i`-th
      image found, whatever the number of images found. */
  lemma PairedImagesAt(structural: seq<StructuralImage>, found: seq<(string, string)>, n: nat,
                       md5: string -> Digest)
    requires n <= |structural|
    ensures forall i | 0 <= i < n ::
      PairedImages(structural, found, n, md5)[i] == PairedImage(structural[i], PairedContent(found, i), md5)
  {
    forall i | 0 <= i < n
      ensures PairedImages(structural, found, n, md5)[i] == PairedImage(structural[i], PairedContent(found, i), md5)
    {
      PairedImageAtIndex(structural, found, n, md5, i);
    }
  }

  /** The page text after the first `n` iterations of the image loop. It
      stays as it was when images are kept inline, when no content so far
      is non-empty, or when it holds no markdown image to begin with. */
  function RewrittenText(found: seq<(string, string)>, n: nat, text0: string, keepInline: bool,
                         md5: string -> Digest): (r: string)
    ensures keepInline ==> r == text0
    ensures (forall i | 0 <= i < n :: PairedContent(found, i) == "") ==> r == text0
    ensures FindAll(MarkdownImages(text0)) == [] ==> r == text0
  {
    if n == 0 then text0
    else RewriteStep(RewrittenText(found, n - 1, text0, keepInline, md5), PairedContent(found, n - 1), keepInline, md5)
  }

  // ---------------------------------------------------------------------
  // What the image loop does to the text
  // ---------------------------------------------------------------------

  /** A text with exactly one markdown image keeps what surrounds it and has
      the image replaced by `repl`. */
  lemma SingleImageReplaced(t: string, repl: string)
    requires |FindAll(MarkdownImages(t))| == 1
    ensures var f := FindAll(MarkdownImages(t))[0];
      f.start < f.end <= |t| && Sub(MarkdownImages(t), t, repl) == t[..f.start] + repl + t[f.end..]
  {
    var fs := FindAll(MarkdownImages(t));
    OrderedBounds(fs, 0, |t|);
    assert fs[1..] == [];
    assert Splice(t, fs[0].end, fs[1..], repl) == t[fs[0].end..];
  }

  /** A text with a markdown image has a `!`: the substitution leaves a
      text without `!` as it is. */
  lemma MarkdownImageNeedsBang(t: string)
    ensures FindAll(MarkdownImages(t)) != [] ==> '!' in t
  {
    var fs := FindAll(MarkdownImages(t));
    if fs != [] {
      FindFromMatches(MarkdownImages(t), 0);
      assert t[fs[0].start] == '!';
    }
  }

  /** A text without `!` is a fixed point of a rewrite step. */
  lemma BanglessStep(t: string, c: string, keepInline: bool, md5: string -> Digest)
    requires '!' !in t
    ensures RewriteStep(t, c, keepInline, md5) == t
  {
    MarkdownImageNeedsBang(t);
  }

  /** Once the text after `m` iterations holds no markdown image, later
      iterations leave it as it is. */
  lemma {:induction false} SettledTextStays(found: seq<(string, string)>, m: nat, n: nat, text0: string,
                                            keepInline: bool, md5: string -> Digest, t: string)
    requires m <= n
    requires RewrittenText(found, m, text0, keepInline, md5) == t && FindAll(MarkdownImages(t)) == []
    ensures RewrittenText(found, n, text0, keepInline, md5) == t
    decreases n - m
  {
    if m < n {
      assert RewriteStep(t, PairedContent(found, m), keepInline, md5) == t;
      SettledTextStays(found, m + 1, n, text0, keepInline, md5, t);
    }
  }

  /** Until the first paired image with a non-empty content, the text is
      untouched; from it on, if its rewrite leaves no markdown image behind,
      the text stays that first rewrite, so every markdown image is replaced
      by a reference to the first such image's hash. */
  lemma FirstContentRewrites(found: seq<(string, string)>, n: nat, text0: string,
                             md5: string -> Digest, j: nat)
    requires forall i | 0 <= i < j :: PairedContent(found, i) == ""
    requires PairedContent(found, j) != ""
    requires FindAll(MarkdownImages(RewriteStep(text0, PairedContent(found, j), false, md5))) == []
    ensures RewrittenText(found, n, text0, false, md5) ==
            if n <= j then text0 else RewriteStep(text0, PairedContent(found, j), false, md5)
  {
    if n > j {
      assert RewrittenText(found, j, text0, false, md5) == text0;
      SettledTextStays(found, j + 1, n, text0, false, md5, RewriteStep(text0, PairedContent(found, j), false, md5));
    }
  }

  /** The first rewrite can leave a markdown image behind (a `!` just before
      a replaced image, with `](data:image/...)` later on, forms a new one);
      the next image with a non-empty content then rewrites the text again. */
  lemma RewriteRepeats(found: seq<(string, string)>, text0: string, md5: string -> Digest, j: nat)
    requires forall i | 0 <= i < j :: PairedContent(found, i) == ""
    requires PairedContent(found, j) != "" && PairedContent(found, j + 1) != ""
    requires FindAll(MarkdownImages(RewriteStep(text0, PairedContent(found, j), false, md5))) != []
    ensures RewrittenText(found, j + 2, text0, false, md5) != RewrittenText(found, j + 1, text0, false, md5)
  {
    var t1 := RewriteStep(text0, PairedContent(found, j), false, md5);
    assert RewrittenText(found, j, text0, false, md5) == text0;
    assert RewrittenText(found, j + 1, text0, false, md5) == t1;
    RewriteChangesText(t1, PairedContent(found, j + 1), md5);
  }
}
