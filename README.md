# FormatterMD, modelled in Dafny

AlcheMark turns PDF pages into annotated markdown. The extraction engine
hands over one `PDFResult` per page: its metadata, its markdown text, and
the tables and images it detected by geometry. `FormatterMD.format`
(`alchemark_ai/formatter/formatter_md.py`) then does the following:

- validates the batch;
- for each page, scans the raw text for titles, list items, links, pipe
  tables and data-URI images;
- pairs the tables and images it finds, by position, with the structural
  ones;
- hashes each paired image payload and stores it truncated at its first
  `=`;
- unless images are kept inline, rewrites the page text in place, replacing
  every markdown image by `[IMAGE](<hash>)`;
- builds one result per page: metadata with the text length, the elements,
  the final text, a token count and a best-effort language.

The project models that class and nothing else around it. The modules are:

- `Wrappers`: `Option`, `Result` and `Outcome`.
- `Chars`: the character classes of the patterns (`\s`, `\d`, the negated
  classes), greedy runs (`Span`), `strip()` emptiness, and `split("=")[0]`.
- `LineItems`, `Links`, `Tables`, `Images`: hand-written matchers for the
  regular expressions at lines 26-35, 49, 59 and 94. Each matcher is the
  attempt Python's engine makes at one position, with the same greedy,
  lazy and backtracking choices. Each is proved both ways against a
  declarative description of the text it matches (`...Shape`):
  - sound: whatever it returns has the shape;
  - complete: wherever the shape starts, it matches.
- `Patterns`: the attempts of each pattern at every position, and the
  scans of `re.findall` (`FindAll`) and `re.sub` (`Sub`) built on them.
  It proves that a scan reports its matches in document order, without
  overlap and missing none, and that `Sub` replaces exactly what `FindAll`
  reports.
- `Scanner`: `_count_markdown_elements`, `_extract_tables` and
  `_extract_images` as functions. Lemmas say what each reported item is.
- `Records`: the records read and written. A page (`PDFResult`) is a class
  whose `text` the formatter assigns. MD5, the tokenizer and the language
  detector are values of type `Collaborators`. `hexdigest()` is modelled,
  with its decoding.
- `Pairing`: table and image pairing, truncation, hashing and the text
  rewrite, as functions of the first `n` loop iterations.
- `Formatter`:
  - `FormatPage` is one iteration of the loop of `format`.
  - `RunUpTo` is the first `n` iterations over a batch in which the same
    page may occur twice. The texts of all pages form a map.
  - The class `FormatterMD` runs the loops imperatively and assigns
    `text` in place. Each of its methods is proved against those
    functions.

The quirks of the code are modelled as written:

- Only the markdown group of an image match gives content. An `<img>` match
  takes a position but pairs as `""` with no hash.
- The rewrite is a global substitution inside the image loop. The first
  paired image with content replaces every markdown image by its own hash.
  A later iteration usually finds nothing left to replace. It rewrites
  again when the first rewrite formed a new markdown image: a `!` just
  before a replaced image, with `](data:image/...)` later on the page,
  gives `![IMAGE](hash) ](data:image/...)`, which matches again
  (Pairing.RewriteRepeats).
- The truncation runs whether or not images stay inline. It appends `=`
  even when the content has none.
- The elements are scanned on the text before the rewrite. The token count,
  the language and `text_length` are taken on the text after it.

## Model

| member | source | states |
|---|---|---|
| Chars.IsSpace | alchemark_ai/formatter/formatter_md.py:26-28 | Python's `\s`: it takes in the newline, so white-space runs cross lines, and it never takes a digit, `#`, `-`, `*`, `+` or `\|` |
| Chars.StripStart | alchemark_ai/formatter/formatter_md.py:126 | `lstrip()`: a suffix of the text, with only white space removed and no white space left at its start |
| Chars.StripEnd | alchemark_ai/formatter/formatter_md.py:126 | `rstrip()`: a prefix of the text, with only white space removed and no white space left at its end |
| Chars.Strip | alchemark_ai/formatter/formatter_md.py:126 | `strip()`: no white space at either end |
| Chars.IsBlank | alchemark_ai/formatter/formatter_md.py:126 | a text is blank if and only if `strip()` leaves it empty |
| Chars.BeforeFirstEquals | alchemark_ai/formatter/formatter_md.py:96 | `split("=")[0]`: a prefix of the content, free of `=`, and followed by `=` when shorter than the content |
| LineItems.SpacesThenText | alchemark_ai/formatter/formatter_md.py:26-28 | the engine on `\s+.+` (greedy `\s+`, then backtracking): what it matches is white space then non-newline text, it ends at a line end, and no `\s+.+` from the same place ends later |
| LineItems.SpacesThenTextComplete | alchemark_ai/formatter/formatter_md.py:26-28 | wherever white space is followed by text, the engine on `\s+.+` matches |
| LineItems.TitleAt | alchemark_ai/formatter/formatter_md.py:26 | a title match starts at a line start, is `\s*#{1,6}\s+.+`, ends at a line end, and ends no earlier than any title at its start |
| LineItems.TitleAtComplete | alchemark_ai/formatter/formatter_md.py:26 | at every line start followed by the title shape, the title pattern matches |
| LineItems.OrderedItemAt | alchemark_ai/formatter/formatter_md.py:27 | an ordered-item match starts at a line start, is `\s*\d+[.)]\s+.+`, ends at a line end, and ends no earlier than any ordered item at its start |
| LineItems.OrderedItemAtComplete | alchemark_ai/formatter/formatter_md.py:27 | at every line start followed by the ordered-item shape, the pattern matches |
| LineItems.UnorderedItemAt | alchemark_ai/formatter/formatter_md.py:28 | an unordered-item match starts at a line start, is `\s*[-*+]\s+.+`, ends at a line end, and ends no earlier than any unordered item at its start |
| LineItems.UnorderedItemAtComplete | alchemark_ai/formatter/formatter_md.py:28 | at every line start followed by the unordered-item shape, the pattern matches |
| Links.MarkdownLinkAt | alchemark_ai/formatter/formatter_md.py:31 | a markdown-link match is `[`, non-`]` text, `](`, non-`)` text, `)` |
| Links.MarkdownLinkAtExact | alchemark_ai/formatter/formatter_md.py:31 | the attempt at a position returns a split if and only if that split is a markdown link there |
| Links.AutoLinkAt | alchemark_ai/formatter/formatter_md.py:35 | an autolink match is `<http://` or `<https://`, then non-`>` text, then `>` |
| Links.AutoLinkAtExact | alchemark_ai/formatter/formatter_md.py:35 | the attempt at a position returns an end if and only if an autolink spans up to it |
| Tables.RowEnd | alchemark_ai/formatter/formatter_md.py:49 | a row match is `\|[^\n]*\|\n` |
| Tables.RowEndExact | alchemark_ai/formatter/formatter_md.py:49 | a row ends at `e` if and only if `t[q..e]` has the row shape |
| Tables.SeparatorIsRow | alchemark_ai/formatter/formatter_md.py:49 | a separator row `\|[-:\| ]*\|\n` is also a row |
| Tables.RowEnds | alchemark_ai/formatter/formatter_md.py:49 | the greedy run of rows: the first row's end, and no row after the last |
| Tables.RowEndsSuffix | alchemark_ai/formatter/formatter_md.py:49 | the greedy run from a row end is the rest of the run |
| Tables.RowEndsAreRuns | alchemark_ai/formatter/formatter_md.py:49 | every prefix of the greedy run is a run of rows |
| Tables.RunIsPrefix | alchemark_ai/formatter/formatter_md.py:49 | every run of rows is a prefix of the greedy run |
| Tables.SeparatorFromSound | alchemark_ai/formatter/formatter_md.py:49 | the backtracking search finds a separator row that has a row after it |
| Tables.SeparatorFromComplete | alchemark_ai/formatter/formatter_md.py:49 | the search finds any separator row that has a row after it |
| Tables.TableAt | alchemark_ai/formatter/formatter_md.py:49 | a table match is non-empty and ends where no further row starts |
| Tables.TableAtSound | alchemark_ai/formatter/formatter_md.py:49 | a table match is rows, one separator row, then rows |
| Tables.TableAtComplete | alchemark_ai/formatter/formatter_md.py:49 | wherever rows, a separator row and rows follow each other, the table pattern matches |
| Images.DataUriAt | alchemark_ai/formatter/formatter_md.py:59 | a data-URI match is `data:image/`, a subtype, `;base64,`, and a payload up to its closing character |
| Images.DataUriAtExact | alchemark_ai/formatter/formatter_md.py:59 | a data URI with its closing character is what the engine finds |
| Images.MdTailAt | alchemark_ai/formatter/formatter_md.py:59 | the tail of a markdown image is `](`, a data URI, `)` |
| Images.LazyAlt | alchemark_ai/formatter/formatter_md.py:59 | the lazy `.*?` takes the shortest alt text after which a tail matches; without DOTALL, no newline |
| Images.LazyAltReaches | alchemark_ai/formatter/formatter_md.py:59 | the lazy alt text is never longer than any alt text that works |
| Images.MarkdownImageAt | alchemark_ai/formatter/formatter_md.py:59 | a markdown-image match is `![`, the shortest working alt text, then the tail |
| Images.MarkdownImageAtComplete | alchemark_ai/formatter/formatter_md.py:59 | wherever a markdown image starts, the alternative matches, with an alt text no longer than the one given |
| Images.SrcAt | alchemark_ai/formatter/formatter_md.py:59 | `src="`, a data URI, `"`, non-`>` text, then `>` |
| Images.NoSrcInAt | alchemark_ai/formatter/formatter_md.py:59 | no `src="` attempt matches anywhere in a range the greedy search passed over |
| Images.GreedySrc | alchemark_ai/formatter/formatter_md.py:59 | the greedy `[^>]*` gives back characters until a `src=` attempt matches, so it picks the last one that works |
| Images.GreedySrcReaches | alchemark_ai/formatter/formatter_md.py:59 | the greedy search finds a `src=` at least as far on as any that works |
| Images.HtmlImageAt | alchemark_ai/formatter/formatter_md.py:59 | an `<img` match has the data URI of its last working `src="` attribute |
| Images.HtmlImageAtComplete | alchemark_ai/formatter/formatter_md.py:59 | wherever an `<img` tag with a data URI starts, the alternative matches |
| Patterns.TitleHit | alchemark_ai/formatter/formatter_md.py:26 | a title attempt consumes characters within the text and has no groups |
| Patterns.MarkdownLinkHit | alchemark_ai/formatter/formatter_md.py:31 | a markdown-link attempt consumes characters and has two groups |
| Patterns.OrderedItemHit | alchemark_ai/formatter/formatter_md.py:27 | an ordered-item attempt consumes characters within the text and has no groups |
| Patterns.UnorderedItemHit | alchemark_ai/formatter/formatter_md.py:28 | an unordered-item attempt consumes characters within the text and has no groups |
| Patterns.TableHit | alchemark_ai/formatter/formatter_md.py:49 | a table attempt consumes characters within the text and has no groups |
| Patterns.AutoLinkHit | alchemark_ai/formatter/formatter_md.py:35 | an autolink attempt consumes characters and has one group |
| Patterns.EmbeddedImageHit | alchemark_ai/formatter/formatter_md.py:59 | an image attempt consumes characters and has two groups |
| Patterns.OrderedBounds | alchemark_ai/formatter/formatter_md.py:26-35 | matches a scan reports lie within the text and do not overlap |
| Patterns.FindFrom | alchemark_ai/formatter/formatter_md.py:26-61 | the `re.findall` scan from a position: its matches lie between that position and the end of the text, in document order, each non-empty and not overlapping the previous one |
| Patterns.FindFromMatches | alchemark_ai/formatter/formatter_md.py:26-35 | every match the scan reports is the attempt at its start, with its end and groups |
| Patterns.FindFromComplete | alchemark_ai/formatter/formatter_md.py:26-35 | every position where the pattern matches lies inside a reported match |
| Patterns.FindAll | alchemark_ai/formatter/formatter_md.py:26-35 | `re.findall`: the matches it reports lie in the text, in document order, each non-empty and not overlapping the previous one |
| Patterns.FindAllIsScan | alchemark_ai/formatter/formatter_md.py:26-61 | `re.findall` reports non-empty matches in document order, without overlap, each the attempt at its start, and misses none |
| Patterns.Splice | alchemark_ai/formatter/formatter_md.py:94 | the text with each reported match replaced by the replacement: the matches lie in the text, and each match's characters give way to one copy of the replacement |
| Patterns.SpliceCopiesGap | alchemark_ai/formatter/formatter_md.py:94 | a character before the first match is copied into the result |
| Patterns.SubFrom | alchemark_ai/formatter/formatter_md.py:94 | the `re.sub` scan from a position replaces exactly the matches the `re.findall` scan from there reports, and copies the text between them |
| Patterns.Sub | alchemark_ai/formatter/formatter_md.py:94 | `re.sub` replaces exactly the matches `re.findall` reports, each by the replacement, and copies the text between them |
| Scanner.MatchedTexts | alchemark_ai/formatter/formatter_md.py:26-28 | one text per match |
| Scanner.MarkdownLinks | alchemark_ai/formatter/formatter_md.py:31-33 | one link per markdown-link match (each link's text and URL: Scanner.MarkdownLinkIsMatch) |
| Scanner.AutoLinks | alchemark_ai/formatter/formatter_md.py:35-37 | one link per autolink match (each link's text and URL: Scanner.AutoLinkIsMatch) |
| Scanner.CountMarkdownElements | alchemark_ai/formatter/formatter_md.py:24-43 | one title per title match; the ordered items, then the unordered ones; the markdown links, then the autolinks, each autolink with text equal to its URL |
| Scanner.ExtractTables | alchemark_ai/formatter/formatter_md.py:47-53 | one block per table match |
| Scanner.ExtractImages | alchemark_ai/formatter/formatter_md.py:57-61 | one pair of groups per image match |
| Scanner.TitleIsMatch | alchemark_ai/formatter/formatter_md.py:26 | title `k` is the text of the `k`-th title match, which is at a line start, has the title shape, and ends no earlier than any title there |
| Scanner.OrderedItemIsMatch | alchemark_ai/formatter/formatter_md.py:27 | list item `k` is the `k`-th ordered-item match, with its shape, ending no earlier than any ordered item there |
| Scanner.UnorderedItemIsMatch | alchemark_ai/formatter/formatter_md.py:28 | the list items after the ordered ones are the unordered-item matches, in order, with their shape, each ending no earlier than any unordered item there |
| Scanner.LinkHitGroups | alchemark_ai/formatter/formatter_md.py:31 | a markdown-link match has its text and URL as groups |
| Scanner.MarkdownLinkIsMatch | alchemark_ai/formatter/formatter_md.py:31-33 | link `k` is the `k`-th markdown link, with its text and URL |
| Scanner.AutoLinkHitGroups | alchemark_ai/formatter/formatter_md.py:35 | an autolink match has the URL between the brackets as its group |
| Scanner.AutoLinkIsMatch | alchemark_ai/formatter/formatter_md.py:35-37 | autolink `k` is the `k`-th autolink match, with its URL as text and URL |
| Scanner.AutoLinksFollow | alchemark_ai/formatter/formatter_md.py:29-38 | the links after the markdown links are the autolinks, in order |
| Scanner.ExtractedTableIsBlock | alchemark_ai/formatter/formatter_md.py:49-53 | table `k` is the text of the `k`-th match: rows, a separator row and rows, up to the last row of the run |
| Scanner.ImageHitGroups | alchemark_ai/formatter/formatter_md.py:59 | exactly one group of an image match is non-empty: the markdown data URI, or else the `<img>` data URI |
| Scanner.ExtractedImageIsMatch | alchemark_ai/formatter/formatter_md.py:59-61 | image pair `k` is the groups of the `k`-th image match |
| Records.HexChar | alchemark_ai/formatter/formatter_md.py:90 | a nibble's digit is lower-case hex and decodes back to the nibble |
| Records.HexDigest | alchemark_ai/formatter/formatter_md.py:90 | `hexdigest()`: two lower-case hex digits per byte |
| Records.Unhex | alchemark_ai/formatter/formatter_md.py:90 | one byte per pair of hex digits |
| Records.HexDigestRoundTrip | alchemark_ai/formatter/formatter_md.py:90 | a hexdigest decodes back to its digest, so distinct digests give distinct hashes |
| Pairing.PairedTable | alchemark_ai/formatter/formatter_md.py:76-82 | a table keeps bbox, rows and columns of its structural table; its content is the `i`-th table block exactly when there is one |
| Pairing.TablesUpTo | alchemark_ai/formatter/formatter_md.py:73-82 | one table per structural table, with its bbox, rows and columns, and content the block at its position or `None`; extra blocks are dropped |
| Pairing.Truncated | alchemark_ai/formatter/formatter_md.py:96 | the stored content is the part before the first `=`, followed by one `=` |
| Pairing.PairedContent | alchemark_ai/formatter/formatter_md.py:88-89 | the content of image `i` is the markdown group of match `i` (empty for an `<img>` match), and `""` when there is no match `i` |
| Pairing.ContentHash | alchemark_ai/formatter/formatter_md.py:90 | a hash exactly for a non-empty content, of 32 characters |
| Pairing.ContentHashDecodes | alchemark_ai/formatter/formatter_md.py:90 | the hash of a non-empty content is lower-case hexadecimal digits and decodes back to the content's MD5 digest |
| Pairing.PairedImage | alchemark_ai/formatter/formatter_md.py:90-105 | a paired image keeps number, bbox, width and height; its stored content is the truncated content (`split("=")[0] + "="`) and its hash the content's MD5 hexdigest, both exactly when the content is non-empty; the hash has 32 digits |
| Pairing.ReferenceToken | alchemark_ai/formatter/formatter_md.py:94 | the reference starts with `[` rather than `!`, and the hash reads back from between `[IMAGE](` and `)` |
| Pairing.RewriteStep | alchemark_ai/formatter/formatter_md.py:92-94 | with a non-empty content and images not kept inline, every reported markdown image is replaced by the reference to the content's hash and the rest copied; otherwise, or when no markdown image is found, the text stays |
| Pairing.RewriteChangesText | alchemark_ai/formatter/formatter_md.py:92-94 | a rewrite step that finds a markdown image changes the text |
| Pairing.PairedImages | alchemark_ai/formatter/formatter_md.py:84-105 | one image per structural image, whatever the number of matches |
| Pairing.PairedImagesAt | alchemark_ai/formatter/formatter_md.py:86-105 | image `i` is structural image `i` paired with the markdown group of match `i`, or `""` |
| Pairing.RewrittenText | alchemark_ai/formatter/formatter_md.py:86-94 | the text after `n` iterations of the image loop stays as it was when images are kept inline, when no content so far is non-empty, or when it held no markdown image |
| Pairing.SingleImageReplaced | alchemark_ai/formatter/formatter_md.py:94 | a text with one markdown image keeps its surroundings and has the image replaced by the reference |
| Patterns.MarkdownImageHit | alchemark_ai/formatter/formatter_md.py:94 | a markdown-image attempt that matches starts with `!`, ends within the text and has one group |
| Pairing.MarkdownImageNeedsBang | alchemark_ai/formatter/formatter_md.py:94 | a text with a markdown image contains `!` |
| Pairing.BanglessStep | alchemark_ai/formatter/formatter_md.py:92-94 | a text without `!` is not changed by a rewrite step |
| Pairing.SettledTextStays | alchemark_ai/formatter/formatter_md.py:87-94 | once the text holds no markdown image, later iterations leave it as it is |
| Pairing.FirstContentRewrites | alchemark_ai/formatter/formatter_md.py:87-94 | the text is untouched up to the first image with content; if that first rewrite leaves no markdown image, the text stays that rewrite, so every markdown image carries the first hash |
| Pairing.RewriteRepeats | alchemark_ai/formatter/formatter_md.py:87-94 | when the first rewrite leaves a markdown image and the next image has content, the next iteration changes the text again |
| Formatter.FormatPage | alchemark_ai/formatter/formatter_md.py:70-132 | one iteration: the final text is the image loop's rewrite, unchanged when inline; it fails only when the tokenizer raises on a non-empty text; `text_length` is the length of the final text; tokens are 0 for empty text; language is `None` for a blank text and otherwise the detector's answer; elements are scanned on the text before the rewrite |
| Formatter.RunUpTo | alchemark_ai/formatter/formatter_md.py:69-133 | the texts of all pages stay defined; a run that has not raised has one result per page done |
| Formatter.FailedRunStays | alchemark_ai/formatter/formatter_md.py:135-136 | after a failure, one more iteration changes nothing |
| Formatter.FailureStops | alchemark_ai/formatter/formatter_md.py:135-136 | after a failure, the run ends as that iteration left it |
| Formatter.RunAdvances | alchemark_ai/formatter/formatter_md.py:69-136 | a succeeding iteration appends its result and sets its page's text; a failing one ends the run with its error |
| Formatter.SucceedingStep | alchemark_ai/formatter/formatter_md.py:132 | an iteration that does not raise appends its result |
| Formatter.SteppedText | alchemark_ai/formatter/formatter_md.py:94 | an iteration sets its own page's text and no other |
| Formatter.PageUntouched | alchemark_ai/formatter/formatter_md.py:69-94 | the iterations leave a page they do not format as it was |
| Formatter.NoFailureYet | alchemark_ai/formatter/formatter_md.py:69-133 | with distinct pages none of which raises, the run has not raised |
| Formatter.OwnResults | alchemark_ai/formatter/formatter_md.py:69-133 | one result per page, each the page's own result |
| Formatter.DistinctPagesSucceed | alchemark_ai/formatter/formatter_md.py:69-133 | with distinct pages none of which raises, the results are exactly one per page, in input order, each from the page's own text |
| Formatter.FormattedPageText | alchemark_ai/formatter/formatter_md.py:69-94 | each formatted page ends with the text its own iteration left |
| Formatter.DistinctPagesTexts | alchemark_ai/formatter/formatter_md.py:69-94 | formatted pages carry their rewritten text; later pages and pages outside the batch keep theirs |
| Formatter.DistinctPagesFail | alchemark_ai/formatter/formatter_md.py:69-136 | the run raises the error of the first page that raises, and that page keeps the text its iteration left |
| Formatter.PagesOf | alchemark_ai/formatter/formatter_md.py:69 | a list of `PDFResult`s gives its pages, one each, in order |
| Records.Page.constructor | alchemark_ai/formatter/formatter_md.py:69-94 | a `PDFResult` page holds its metadata, its tables, its images and its `text`, the only field the formatter assigns (line 94) |
| Formatter.FormatterMD.constructor | alchemark_ai/formatter/formatter_md.py:9-12 | keeps the content, the inline flag and the collaborators; one iteration is FormatPage with these settings |
| Formatter.FormatterMD.CheckContent | alchemark_ai/formatter/formatter_md.py:14-22 | passes if and only if the content is a non-empty list of `PDFResult`s; a non-list or a foreign element is one error; an empty list is the other |
| Formatter.FormatterMD.Pages | alchemark_ai/formatter/formatter_md.py:18-20 | after a passing check, the pages are the content's items, in order |
| Formatter.FormatterMD.Texts | alchemark_ai/formatter/formatter_md.py:69 | each page's current text |
| Formatter.FormatterMD.PairTables | alchemark_ai/formatter/formatter_md.py:73-82 | the loop builds the table list TablesUpTo describes |
| Formatter.FormatterMD.PairImage | alchemark_ai/formatter/formatter_md.py:86-105 | one iteration yields the paired image and the page text after one rewrite step |
| Formatter.FormatterMD.PairImages | alchemark_ai/formatter/formatter_md.py:84-105 | the loop builds the PairedImages list and leaves the page text as RewrittenText |
| Formatter.FormatterMD.FormatItem | alchemark_ai/formatter/formatter_md.py:70-130 | formatting a page in place yields FormatPage's text and result |
| Formatter.FormatterMD.Format | alchemark_ai/formatter/formatter_md.py:65-136 | a failing check raises and changes no text; otherwise the result and the page texts are RunUpTo's over all pages |
| Formatter.FormatterMD.RunPages | alchemark_ai/formatter/formatter_md.py:69-133 | the loop yields RunUpTo's results and leaves every page with RunUpTo's text |
| Formatter.FormatterMD.RunPage | alchemark_ai/formatter/formatter_md.py:69-133 | one loop iteration moves the run one page on, or ends it with the error raised |

## Left out

- `alchemark_ai/pdf2md/pdf2md.py` (file checks and the call into the PDF engine) and `alchemark_ai/__init__.py` (the composition wrapper) are not part of this model.
- MD5, the gpt-4o tokenizer and language detection are foreign libraries. They are the parameters `md5`, `countTokens` and `detectLanguage` of `Collaborators`. The tokenizer raising is `None`, and it makes `format` fail. The detector raising is `None`, which leaves the language `None`.
- Formatter.FormatterMD.constructor: does not model loading the tokenizer (line 11); the collaborators are given to it.
- Pydantic validation of the records and the message strings of the `ValueError`s (lines 16, 20, 22, 45, 55, 63, 136) are left out. Errors are the three cases of `FormatError`.
- The `try`/`except` around each scan (lines 44-45, 54-55, 62-63) is left out: the fixed patterns cannot make `re` raise.
- A page whose `text` is `None` is left out: `text` is a string in the model. The code raises on such a page: `re.findall` on `None` raises a `TypeError`, which line 45 turns into a `ValueError` and line 136 re-raises.
- Missing or `None` `tables` and `images` are modelled as empty lists; the code treats both alike.
- `image_content.encode()` (line 90) is left out: `md5` takes the string itself. A Python `str` may hold lone surrogates (PDF-extracted text can), and encoding one raises `UnicodeEncodeError`, which line 136 turns into a `ValueError`. The model's strings hold only Unicode scalar values, so it has neither that input nor that failure.
- Language detection is a pure function here: `detectLanguage` gives the same answer for the same text. `langdetect.detect` (line 4) is randomised and the code sets no `DetectorFactory.seed`, so two pages with equal text may get different languages, and one page may get different languages on different runs.
- `\d` is modelled as the ASCII digits only. Python also accepts other Unicode decimal digits.
- The general regular-expression engine is left out. Each pattern of lines 26-35, 49, 59 and 94 has its own matcher, written for that pattern.
- The ghost field `step` of the class is one iteration of the loop with the formatter's settings. It lets the loop's contract name that iteration, and it has no counterpart in the code.
- Pairing.FirstContentRewrites: states the final text only when the first rewrite leaves no markdown image. Otherwise a later image with content rewrites the text again (Pairing.RewriteRepeats), and the final text is given by Pairing.RewrittenText alone.
- Pairing.SingleImageReplaced: does not state that an `<img>` tag outside the replaced image survives. It follows only from the copied surroundings.
- Update in place is modelled on the `Page` objects. Two occurrences of the same page in the batch share one text, through the texts map of `RunUpTo`. The lemmas about per-page results assume distinct pages.
