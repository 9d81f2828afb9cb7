/** `FormatterMD` (formatter_md.py): validates the batch of extracted pages,
    then, page by page, scans the raw text, pairs the table blocks and images
    found with the structural ones, rewrites markdown images into references
    (assigning the page's text in place), and assembles one result per page.

    `FormatPage` says what one iteration of the loop of `format` yields;
    `RunUpTo` what the loop yields after `n` pages, with the texts of all
    pages as a map since the same page may occur twice in the batch. The
    class runs the loop and is proved against both. */
module Formatter {
  import opened Wrappers
  import opened Chars
  import opened Patterns
  import opened Scanner
  import opened Records
  import opened Pairing

  /** What one iteration of the loop leaves behind: the page's text after it
      and the result it appended, or the error it raised. */
  datatype PageOutcome = PageOutcome(text: string, result: Result<FormattedResult, FormatError>)

  /** One iteration of the loop of `format` on a page whose text is `text0`
      when the iteration starts (formatter_md.py, lines 70-132). */
  function FormatPage(meta: PageMetadata, text0: string, tables: seq<StructuralTable>,
                      images: seq<StructuralImage>, keepInline: bool, tools: Collaborators): (r: PageOutcome)
    // the page text ends as the image loop leaves it, untouched when images stay inline
    ensures r.text == RewrittenText(ExtractImages(text0), |images|, text0, keepInline, tools.md5)
    ensures keepInline ==> r.text == text0
    // the only error is the tokenizer raising on a non-empty final text
    ensures r.result.Failure? <==> r.text != "" && tools.countTokens(r.text).None?
    ensures r.result.Failure? ==> r.result.error == TokenizerFailed
    ensures r.result.Success? ==>
      var fr := r.result.value;
      fr.text == r.text && fr.metadata.textLength == |fr.text| &&
      fr.metadata.filePath == meta.filePath && fr.metadata.page == meta.page &&
      fr.metadata.pageCount == meta.pageCount &&
      (fr.text == "" ==> fr.tokens == 0) &&
      (fr.text != "" ==> tools.countTokens(fr.text) == Some(fr.tokens)) &&
      (IsBlank(fr.text) ==> fr.language.None?) &&
      (!IsBlank(fr.text) ==> fr.language == tools.detectLanguage(fr.text))
    // the elements are scanned on the text as it was before the rewrite
    ensures r.result.Success? ==>
      var el := r.result.value.elements;
      el.tables == TablesUpTo(tables, ExtractTables(text0), |tables|) &&
      el.images == PairedImages(images, ExtractImages(text0), |images|, tools.md5) &&
      MarkdownElements(el.titles, el.lists, el.links) == CountMarkdownElements(text0)
  {
    var found := ExtractImages(text0);
    var text := RewrittenText(found, |images|, text0, keepInline, tools.md5);
    var elements := CountMarkdownElements(text0);
    var formatted := FormattedElements(
      TablesUpTo(tables, ExtractTables(text0), |tables|),
      PairedImages(images, found, |images|, tools.md5),
      elements.titles, elements.lists, elements.links);
    var tokens := if text == "" then Some(0) else tools.countTokens(text);
    var language := if !IsBlank(text) then tools.detectLanguage(text) else None;
    PageOutcome(text,
      match tokens
      case None => Failure(TokenizerFailed)
      case Some(count) =>
        Success(FormattedResult(
          FormattedMetadata(meta.filePath, meta.page, meta.pageCount, |text|),
          formatted, text, count, language)))
  }

  /** The texts of the pages and the results (or the error) after the first
      `n` iterations of the loop of `format`, starting from the texts `texts0`;
      `step` is one iteration (FormatPage with the formatter's settings). A
      page that occurs twice is formatted the second time from the text the
      first time left. */
  datatype RunState = RunState(texts: map<Page, string>, results: Result<seq<FormattedResult>, FormatError>)

  function RunUpTo(pages: seq<Page>, n: nat, texts0: map<Page, string>,
                   step: (Page, string) -> PageOutcome): (s: RunState)
    requires n <= |pages|
    requires forall i | 0 <= i < |pages| :: pages[i] in texts0
    ensures forall p | p in texts0 :: p in s.texts
    ensures s.results.Success? ==> |s.results.value| == n
  {
    if n == 0 then RunState(texts0, Success([]))
    else
      var prev := RunUpTo(pages, n - 1, texts0, step);
      if prev.results.Failure? then prev
      else
        var page := pages[n - 1];
        var o := step(page, prev.texts[page]);
        RunState(prev.texts[page := o.text],
          match o.result
          case Failure(e) => Failure(e)
          case Success(fr) => Success(prev.results.value + [fr]))
  }

  /** One iteration after a failure changes nothing. */
  lemma FailedRunStays(pages: seq<Page>, n: nat, texts0: map<Page, string>, step: (Page, string) -> PageOutcome)
    requires 0 < n <= |pages|
    requires forall i | 0 <= i < |pages| :: pages[i] in texts0
    requires RunUpTo(pages, n - 1, texts0, step).results.Failure?
    ensures RunUpTo(pages, n, texts0, step) == RunUpTo(pages, n - 1, texts0, step)
  {
  }

  /** Once an iteration raised, the run stays as that iteration left it. */
  lemma {:induction false} FailureStops(pages: seq<Page>, m: nat, n: nat, texts0: map<Page, string>,
                                        step: (Page, string) -> PageOutcome)
    requires m <= n <= |pages|
    requires forall i | 0 <= i < |pages| :: pages[i] in texts0
    requires RunUpTo(pages, m, texts0, step).results.Failure?
    ensures RunUpTo(pages, n, texts0, step) == RunUpTo(pages, m, texts0, step)
    decreases n - m
  {
    if m < n {
      FailureStops(pages, m, n - 1, texts0, step);
      FailedRunStays(pages, n, texts0, step);
    }
  }

  /** One more iteration of the run, given what it has reached and what the
      iteration yields. */
  lemma RunAdvances(pages: seq<Page>, i: nat, texts0: map<Page, string>, step: (Page, string) -> PageOutcome,
                    texts: map<Page, string>, results: seq<FormattedResult>, o: PageOutcome)
    requires i < |pages|
    requires forall k | 0 <= k < |pages| :: pages[k] in texts0
    requires RunUpTo(pages, i, texts0, step) == RunState(texts, Success(results))
    requires step(pages[i], texts[pages[i]]) == o
    ensures o.result.Success? ==>
      RunUpTo(pages, i + 1, texts0, step) == RunState(texts[pages[i] := o.text], Success(results + [o.result.value]))
    ensures o.result.Failure? ==>
      RunUpTo(pages, |pages|, texts0, step) == RunState(texts[pages[i] := o.text], Failure(o.result.error))
  {
    if o.result.Failure? {
      FailureStops(pages, i + 1, |pages|, texts0, step);
    }
  }

  /** An iteration that does not raise appends its result. */
  lemma SucceedingStep(pages: seq<Page>, i: nat, texts0: map<Page, string>, step: (Page, string) -> PageOutcome)
    requires i < |pages|
    requires forall k | 0 <= k < |pages| :: pages[k] in texts0
    requires RunUpTo(pages, i, texts0, step).results.Success?
    requires step(pages[i], RunUpTo(pages, i, texts0, step).texts[pages[i]]).result.Success?
    ensures RunUpTo(pages, i + 1, texts0, step).results.Success?
    ensures RunUpTo(pages, i + 1, texts0, step).results.value ==
      RunUpTo(pages, i, texts0, step).results.value +
      [step(pages[i], RunUpTo(pages, i, texts0, step).texts[pages[i]]).result.value]
  {
  }

  /** With every page occurring once and none of the first `n` raising, the
      run has not raised after them. */
  lemma {:induction false} NoFailureYet(pages: seq<Page>, n: nat, texts0: map<Page, string>,
                                        step: (Page, string) -> PageOutcome)
    requires n <= |pages|
    requires forall i | 0 <= i < |pages| :: pages[i] in texts0
    requires forall i, j | 0 <= i < j < |pages| :: pages[i] != pages[j]
    requires forall i | 0 <= i < n :: step(pages[i], texts0[pages[i]]).result.Success?
    ensures RunUpTo(pages, n, texts0, step).results.Success?
  {
    if n > 0 {
      NoFailureYet(pages, n - 1, texts0, step);
      PageUntouched(pages, n - 1, texts0, step, pages[n - 1]);
    }
  }

  /** The results of the first `n` pages, each formatted from its own
      starting text, when none of them raises. */
  function OwnResults(pages: seq<Page>, n: nat, texts0: map<Page, string>,
                      step: (Page, string) -> PageOutcome): (r: seq<FormattedResult>)
    requires n <= |pages|
    requires forall i | 0 <= i < |pages| :: pages[i] in texts0
    requires forall i | 0 <= i < n :: step(pages[i], texts0[pages[i]]).result.Success?
    ensures |r| == n
    ensures forall i | 0 <= i < n :: r[i] == step(pages[i], texts0[pages[i]]).result.value
  {
    if n == 0 then []
    else OwnResults(pages, n - 1, texts0, step) + [step(pages[n - 1], texts0[pages[n - 1]]).result.value]
  }

  /** With every page occurring once and none of the first `n` raising, the
      run has not raised and yields exactly one result per page, in order,
      each the page's own result. */
  lemma {:induction false} DistinctPagesSucceed(pages: seq<Page>, n: nat, texts0: map<Page, string>,
                                                step: (Page, string) -> PageOutcome)
    requires n <= |pages|
    requires forall i | 0 <= i < |pages| :: pages[i] in texts0
    requires forall i, j | 0 <= i < j < |pages| :: pages[i] != pages[j]
    requires forall i | 0 <= i < n :: step(pages[i], texts0[pages[i]]).result.Success?
    ensures RunUpTo(pages, n, texts0, step).results == Success(OwnResults(pages, n, texts0, step))
  {
    if n > 0 {
      DistinctPagesSucceed(pages, n - 1, texts0, step);
      PageUntouched(pages, n - 1, texts0, step, pages[n - 1]);
      SucceedingStep(pages, n - 1, texts0, step);
    }
  }

  /** The first `n` iterations leave the text of a page they do not format
      as it was. */
  lemma {:induction false} PageUntouched(pages: seq<Page>, n: nat, texts0: map<Page, string>,
                                         step: (Page, string) -> PageOutcome, p: Page)
    requires n <= |pages|
    requires forall i | 0 <= i < |pages| :: pages[i] in texts0
    requires p in texts0 && forall i | 0 <= i < n :: pages[i] != p
    ensures RunUpTo(pages, n, texts0, step).texts[p] == texts0[p]
  {
    if n > 0 {
      PageUntouched(pages, n - 1, texts0, step, p);
    }
  }

  /** An iteration that starts after no failure sets the text of its page. */
  lemma SteppedText(pages: seq<Page>, i: nat, texts0: map<Page, string>, step: (Page, string) -> PageOutcome)
    requires i < |pages|
    requires forall k | 0 <= k < |pages| :: pages[k] in texts0
    requires RunUpTo(pages, i, texts0, step).results.Success?
    ensures RunUpTo(pages, i + 1, texts0, step).texts ==
      RunUpTo(pages, i, texts0, step).texts[pages[i] := step(pages[i], RunUpTo(pages, i, texts0, step).texts[pages[i]]).text]
  {
  }

  /** With every page occurring once and none of the first `n` raising, each
      of the first `n` pages ends with the text its own iteration left. */
  lemma {:induction false} FormattedPageText(pages: seq<Page>, n: nat, texts0: map<Page, string>,
                                             step: (Page, string) -> PageOutcome, j: nat)
    requires j < n <= |pages|
    requires forall i | 0 <= i < |pages| :: pages[i] in texts0
    requires forall i, k | 0 <= i < k < |pages| :: pages[i] != pages[k]
    requires forall i | 0 <= i < n :: step(pages[i], texts0[pages[i]]).result.Success?
    ensures RunUpTo(pages, n, texts0, step).texts[pages[j]] == step(pages[j], texts0[pages[j]]).text
  {
    NoFailureYet(pages, n - 1, texts0, step);
    SteppedText(pages, n - 1, texts0, step);
    var prev, page := RunUpTo(pages, n - 1, texts0, step).texts, pages[n - 1];
    var now := RunUpTo(pages, n, texts0, step).texts;
    assert now == prev[page := step(page, prev[page]).text];
    if j == n - 1 {
      PageUntouched(pages, n - 1, texts0, step, page);
      assert now[page] == step(page, texts0[page]).text;
    } else {
      FormattedPageText(pages, n - 1, texts0, step, j);
      assert page != pages[j];
      assert now[pages[j]] == prev[pages[j]];
    }
  }

  /** With every page occurring once and none of the first `n` raising, the
      run has not raised and each page is formatted from its own starting
      text: each of the first `n` pages ends with the text its iteration
      left, and the later pages and those not in the batch keep theirs. */
  lemma DistinctPagesTexts(pages: seq<Page>, n: nat, texts0: map<Page, string>,
                           step: (Page, string) -> PageOutcome)
    requires n <= |pages|
    requires forall i | 0 <= i < |pages| :: pages[i] in texts0
    requires forall i, j | 0 <= i < j < |pages| :: pages[i] != pages[j]
    requires forall i | 0 <= i < n :: step(pages[i], texts0[pages[i]]).result.Success?
    ensures RunUpTo(pages, n, texts0, step).results.Success?
    ensures forall i | 0 <= i < n :: RunUpTo(pages, n, texts0, step).texts[pages[i]] == step(pages[i], texts0[pages[i]]).text
    ensures forall i | n <= i < |pages| :: RunUpTo(pages, n, texts0, step).texts[pages[i]] == texts0[pages[i]]
    ensures forall p | p in texts0 && p !in pages :: RunUpTo(pages, n, texts0, step).texts[p] == texts0[p]
  {
    DistinctPagesSucceed(pages, n, texts0, step);
    forall i | 0 <= i < n
      ensures RunUpTo(pages, n, texts0, step).texts[pages[i]] == step(pages[i], texts0[pages[i]]).text
    {
      FormattedPageText(pages, n, texts0, step, i);
    }
    forall i | n <= i < |pages|
      ensures RunUpTo(pages, n, texts0, step).texts[pages[i]] == texts0[pages[i]]
    {
      PageUntouched(pages, n, texts0, step, pages[i]);
    }
    forall p | p in texts0 && p !in pages
      ensures RunUpTo(pages, n, texts0, step).texts[p] == texts0[p]
    {
      PageUntouched(pages, n, texts0, step, p);
    }
  }

  /** With every page occurring once, the run raises exactly the error of the
      first page whose iteration raises, and leaves that page with the text
      its iteration left. */
  lemma DistinctPagesFail(pages: seq<Page>, j: nat, texts0: map<Page, string>,
                          step: (Page, string) -> PageOutcome)
    requires j < |pages|
    requires forall i | 0 <= i < |pages| :: pages[i] in texts0
    requires forall i, k | 0 <= i < k < |pages| :: pages[i] != pages[k]
    requires forall i | 0 <= i < j :: step(pages[i], texts0[pages[i]]).result.Success?
    requires step(pages[j], texts0[pages[j]]).result.Failure?
    ensures RunUpTo(pages, |pages|, texts0, step).results == Failure(step(pages[j], texts0[pages[j]]).result.error)
    ensures RunUpTo(pages, |pages|, texts0, step).texts[pages[j]] == step(pages[j], texts0[pages[j]]).text
  {
    DistinctPagesSucceed(pages, j, texts0, step);
    PageUntouched(pages, j, texts0, step, pages[j]);
    var prev := RunUpTo(pages, j, texts0, step);
    RunAdvances(pages, j, texts0, step, prev.texts, prev.results.value, step(pages[j], texts0[pages[j]]));
  }

  /** The formatter: the batch of pages (`content`), whether images stay
      inline in the text, and the foreign code it calls. */
  class FormatterMD {
    const content: Content
    const keepImagesInline: bool
    const tools: Collaborators

    /** One iteration of the loop of `format` with this formatter's settings:
        FormatPage, as the constructor ensures. */
    ghost const step: (Page, string) -> PageOutcome

    /** `step` formats page `p` as FormatPage does, from any starting text. */
    ghost predicate StepFormats(p: Page) {
      forall text: string {:trigger FormatPage(p.metadata, text, p.tables, p.images, keepImagesInline, tools)} ::
        step(p, text) == FormatPage(p.metadata, text, p.tables, p.images, keepImagesInline, tools)
    }

    constructor (content: Content, keepImagesInline: bool, tools: Collaborators)
      ensures this.content == content && this.keepImagesInline == keepImagesInline && this.tools == tools
      ensures forall p: Page :: StepFormats(p)
    {
      this.content := content;
      this.keepImagesInline := keepImagesInline;
      this.tools := tools;
      this.step := (p: Page, text: string) => FormatPage(p.metadata, text, p.tables, p.images, keepImagesInline, tools);
    }

    /** `_check_content`: the content must be a list of `PDFResult`s, and a
        non-empty one; a list with some other element fails as a non-list
        does, whether or not it is empty. */
    function CheckContent(): (r: Outcome<FormatError>)
      ensures r.Pass? <==>
        content.ListOf? && |content.items| > 0 &&
        forall i | 0 <= i < |content.items| :: content.items[i].PdfResult?
      ensures r == Fail(NotAListOfPdfResults) <==>
        content.NotAList? || exists i | 0 <= i < |content.items| :: content.items[i].OtherValue?
      ensures r == Fail(EmptyContent) <==> content == ListOf([])
    {
      match content
      case NotAList => Fail(NotAListOfPdfResults)
      case ListOf(items) =>
        if exists i | 0 <= i < |items| :: items[i].OtherValue? then Fail(NotAListOfPdfResults)
        else if |items| == 0 then Fail(EmptyContent)
        else Pass
    }

    /** The pages the content holds, in order: what `format` iterates over,
        and what it may assign a text to. */
    function Pages(): (ps: seq<Page>)
      ensures CheckContent().Pass? ==>
        |ps| == |content.items| && forall i | 0 <= i < |ps| :: content.items[i] == PdfResult(ps[i])
    {
      if content.NotAList? then [] else PagesOf(content.items)
    }

    /** The current text of every page of the content. */
    function Texts(): (m: map<Page, string>)
      reads Pages()
      ensures forall i | 0 <= i < |Pages()| :: Pages()[i] in m && m[Pages()[i]] == Pages()[i].text
    {
      map p | p in Pages() :: p.text
    }

    /** Lines 73-82: one table per structural table, each with the table
        block at its position, if any. */
    method PairTables(structural: seq<StructuralTable>, found: seq<string>) returns (tables: seq<Table>)
      ensures tables == TablesUpTo(structural, found, |structural|)
    {
      tables := [];
      for i := 0 to |structural|
        invariant tables == TablesUpTo(structural, found, i)
      {
        var tableContent := if i < |found| then Some(found[i]) else None;
        tables := tables + [Table(structural[i].bbox, structural[i].rows, structural[i].columns, tableContent)];
      }
    }

    /** Lines 84-105: one image per structural image, with the markdown data
        URI at its position, truncated, and its hash; each non-empty content
        also rewrites every markdown image of the page text, in place, unless
        images stay inline. */
    method PairImages(item: Page, found: seq<(string, string)>) returns (images: seq<Image>)
      modifies item
      ensures images == PairedImages(item.images, found, |item.images|, tools.md5)
      ensures item.text == RewrittenText(found, |item.images|, old(item.text), keepImagesInline, tools.md5)
    {
      var structural := item.images;
      ghost var text0 := item.text;
      images := [];
      for i := 0 to |structural|
        invariant images == PairedImages(structural, found, i, tools.md5)
        invariant item.text == RewrittenText(found, i, text0, keepImagesInline, tools.md5)
      {
        var imageContent := if i < |found| && found[i].0 != "" then found[i].0 else "";
        var image := PairImage(item, structural[i], imageContent);
        images := images + [image];
      }
    }

    /** Lines 86-105: one iteration of the image loop, for structural image
        `si` and the content paired with it. */
    method PairImage(item: Page, si: StructuralImage, imageContent: string) returns (image: Image)
      modifies item
      ensures image == PairedImage(si, imageContent, tools.md5)
      ensures item.text == RewriteStep(old(item.text), imageContent, keepImagesInline, tools.md5)
    {
      var imageHash := if imageContent != "" then Some(HexDigest(tools.md5(imageContent))) else None;
      var stored := imageContent;
      if imageContent != "" {
        if !keepImagesInline {
          item.text := Sub(MarkdownImages(item.text), item.text, ReferenceToken(imageHash.value));
        }
        stored := BeforeFirstEquals(imageContent) + "=";
      }
      image := Image(si.number, si.bbox, si.width, si.height, stored, imageHash);
    }

    /** Lines 70-130: one iteration of the loop of `format` on `item`. */
    method FormatItem(item: Page) returns (r: Result<FormattedResult, FormatError>)
      requires StepFormats(item)
      modifies item
      ensures item.text == step(item, old(item.text)).text
      ensures r == step(item, old(item.text)).result
    {
      var elements := CountMarkdownElements(item.text);
      var foundTables := ExtractTables(item.text);
      var foundImages := ExtractImages(item.text);
      var tables := PairTables(item.tables, foundTables);
      var images := PairImages(item, foundImages);
      var text := item.text;
      var tokens := if text != "" then tools.countTokens(text) else Some(0);
      if tokens.None? {
        r := Failure(TokenizerFailed);
      } else {
        var language := None;
        if text != "" && Strip(text) != "" {
          language := tools.detectLanguage(text);
        }
        r := Success(FormattedResult(
          FormattedMetadata(item.metadata.filePath, item.metadata.page, item.metadata.pageCount, |text|),
          FormattedElements(tables, images, elements.titles, elements.lists, elements.links),
          text, tokens.value, language));
      }
      assert PageOutcome(item.text, r) == FormatPage(item.metadata, old(item.text), item.tables, item.images, keepImagesInline, tools);
    }

    /** `format`: the check, then the loop over the pages. A failure raises
        at once; a page rewritten before it stays rewritten. */
    method Format() returns (r: Result<seq<FormattedResult>, FormatError>)
      requires forall p: Page :: StepFormats(p)
      modifies Pages()
      ensures CheckContent().Fail? ==> r == Failure(CheckContent().error) && Texts() == old(Texts())
      ensures CheckContent().Pass? ==>
        var s := RunUpTo(Pages(), |Pages()|, old(Texts()), step);
        r == s.results && forall k | 0 <= k < |Pages()| :: Pages()[k].text == s.texts[Pages()[k]]
    {
      var check := CheckContent();
      if check.Fail? {
        return Failure(check.error);
      }
      r := RunPages(Pages(), Texts());
    }

    /** Lines 69-133: the loop of `format` over `pages`, whose texts are
        `texts0` when it starts. */
    method RunPages(pages: seq<Page>, ghost texts0: map<Page, string>) returns (r: Result<seq<FormattedResult>, FormatError>)
      requires forall k | 0 <= k < |pages| :: pages[k] in texts0 && pages[k].text == texts0[pages[k]]
      requires forall p: Page :: StepFormats(p)
      modifies pages
      ensures r == RunUpTo(pages, |pages|, texts0, step).results
      ensures forall k | 0 <= k < |pages| :: pages[k].text == RunUpTo(pages, |pages|, texts0, step).texts[pages[k]]
    {
      var results: seq<FormattedResult> := [];
      var i := 0;
      ghost var run := RunUpTo(pages, 0, texts0, step);
      while i < |pages|
        invariant 0 <= i <= |pages| && run == RunUpTo(pages, i, texts0, step)
        invariant run.results == Success(results)
        invariant forall k | 0 <= k < |pages| :: pages[k].text == run.texts[pages[k]]
      {
        var outcome := RunPage(pages, i, texts0, results);
        if outcome.Failure? {
          return Failure(outcome.error);
        }
        results := results + [outcome.value];
        i := i + 1;
        run := RunUpTo(pages, i, texts0, step);
      }
      r := Success(results);
    }

    /** One iteration of the loop of `format`: page `i` is formatted from the
        text the first `i` iterations left, and the run moves on, or ends
        with the error raised. */
    method RunPage(pages: seq<Page>, i: nat, ghost texts0: map<Page, string>, ghost results: seq<FormattedResult>)
      returns (outcome: Result<FormattedResult, FormatError>)
      requires i < |pages| && StepFormats(pages[i])
      requires forall k | 0 <= k < |pages| :: pages[k] in texts0
      requires RunUpTo(pages, i, texts0, step).results == Success(results)
      requires forall k | 0 <= k < |pages| :: pages[k].text == RunUpTo(pages, i, texts0, step).texts[pages[k]]
      modifies pages[i]
      ensures outcome.Success? ==> RunUpTo(pages, i + 1, texts0, step).results == Success(results + [outcome.value])
      ensures outcome.Success? ==>
        forall k | 0 <= k < |pages| :: pages[k].text == RunUpTo(pages, i + 1, texts0, step).texts[pages[k]]
      ensures outcome.Failure? ==> RunUpTo(pages, |pages|, texts0, step).results == Failure(outcome.error)
      ensures outcome.Failure? ==>
        forall k | 0 <= k < |pages| :: pages[k].text == RunUpTo(pages, |pages|, texts0, step).texts[pages[k]]
    {
      var item := pages[i];
      ghost var before := RunUpTo(pages, i, texts0, step);
      outcome := FormatItem(item);
      RunAdvances(pages, i, texts0, step, before.texts, results, PageOutcome(item.text, outcome));
      ghost var after := before.texts[item := item.text];
      forall k | 0 <= k < |pages|
        ensures pages[k].text == after[pages[k]]
      {
        if pages[k] != item {
          assert pages[k].text == old(pages[k].text);
        }
      }
    }
  }

  /** The pages among `items`, in order. */
  function PagesOf(items: seq<Item>): (ps: seq<Page>)
    ensures (forall i | 0 <= i < |items| :: items[i].PdfResult?) ==>
      |ps| == |items| && forall i | 0 <= i < |ps| :: items[i] == PdfResult(ps[i])
  {
    if items == [] then []
    else (if items[0].PdfResult? then [items[0].page] else []) + PagesOf(items[1..])
  }
}
