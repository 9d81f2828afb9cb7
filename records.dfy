/** The records the formatter reads and writes: the extracted pages
    (`PDFResult`) and the formatted results, with the three foreign
    libraries it calls given as values. */
module Records {
  import opened Wrappers
  import Scanner

  datatype BBox = BBox(x0: real, y0: real, x1: real, y1: real)

  /** A table the extraction engine found by geometry; it has no text. */
  datatype StructuralTable = StructuralTable(bbox: BBox, rows: int, columns: int)

  /** An image the extraction engine found by geometry. */
  datatype StructuralImage = StructuralImage(number: int, bbox: BBox, width: int, height: int)

  datatype PageMetadata = PageMetadata(filePath: string, page: int, pageCount: int)

  /** One extracted page (`PDFResult`). The formatter assigns its `text` in
      place when it rewrites images. */
  class Page {
    const metadata: PageMetadata
    var text: string
    const tables: seq<StructuralTable>
    const images: seq<StructuralImage>

    constructor (metadata: PageMetadata, text: string, tables: seq<StructuralTable>, images: seq<StructuralImage>)
      ensures this.metadata == metadata && this.text == text
      ensures this.tables == tables && this.images == images
    {
      this.metadata := metadata;
      this.text := text;
      this.tables := tables;
      this.images := images;
    }
  }

  /** An element of the formatter's `content`: a `PDFResult` or any other value. */
  datatype Item = PdfResult(page: Page) | OtherValue

  /** The formatter's `content`: a list, or some value that is not a list. */
  datatype Content = ListOf(items: seq<Item>) | NotAList

  /** A structural table with the text of its table block, if one was found. */
  datatype Table = Table(bbox: BBox, rows: int, columns: int, content: Option<string>)

  /** A structural image with its stored (truncated) data URI and its hash. */
  datatype Image = Image(number: int, bbox: BBox, width: int, height: int, base64: string, hash: Option<string>)

  datatype FormattedMetadata = FormattedMetadata(filePath: string, page: int, pageCount: int, textLength: nat)

  datatype FormattedElements = FormattedElements(
    tables: seq<Table>, images: seq<Image>,
    titles: seq<string>, lists: seq<string>, links: seq<Scanner.Link>)

  datatype FormattedResult = FormattedResult(
    metadata: FormattedMetadata, elements: FormattedElements,
    text: string, tokens: nat, language: Option<string>)

  /** Why `format` raises its `ValueError`. */
  datatype FormatError =
    | NotAListOfPdfResults  // content is not a list, or holds something else
    | EmptyContent          // content is an empty list
    | TokenizerFailed       // the tokenizer raised on a page's final text

  newtype Byte = x: int | 0 <= x < 256

  type Digest = d: seq<Byte> | |d| == 16 witness [0, 0, 0, 0, 0, 0, 0, 0, 0, 0, 0, 0, 0, 0, 0, 0]

  /** The foreign code the formatter calls: MD5 over the UTF-8 bytes of a
      string; `len(encoding.encode(text))` for the gpt-4o encoding, `None`
      when it raises; and language detection, `None` when it raises. */
  datatype Collaborators = Collaborators(
    md5: string -> Digest,
    countTokens: string -> Option<nat>,
    detectLanguage: string -> Option<string>)

  predicate IsLowerHex(c: char) {
    '0' <= c <= '9' || 'a' <= c <= 'f'
  }

  /** The nibble a lower-case hexadecimal digit stands for. */
  function HexValue(c: char): (n: int)
    requires IsLowerHex(c)
  {
    if c <= '9' then c as int - '0' as int else c as int - 'a' as int + 10
  }

  /** The lower-case hexadecimal digit of a nibble. */
  function HexChar(n: int): (c: char)
    requires 0 <= n < 16
    ensures IsLowerHex(c) && HexValue(c) == n
  {
    if n < 10 then ('0' as int + n) as char else ('a' as int + n - 10) as char
  }

  /** `hexdigest()`: two lower-case hexadecimal digits per byte, high nibble first. */
  function HexDigest(d: seq<Byte>): (r: string)
    ensures |r| == 2 * |d|
    ensures forall k | 0 <= k < |r| :: IsLowerHex(r[k])
  {
    if d == [] then []
    else [HexChar(d[0] as int / 16), HexChar(d[0] as int % 16)] + HexDigest(d[1..])
  }

  /** The bytes a string of lower-case hexadecimal digit pairs spells. */
  function Unhex(s: string): (d: seq<Byte>)
    requires |s| % 2 == 0 && forall k | 0 <= k < |s| :: IsLowerHex(s[k])
    ensures |d| == |s| / 2
  {
    if s == [] then []
    else [(16 * HexValue(s[0]) + HexValue(s[1])) as Byte] + Unhex(s[2..])
  }

  /** A hexdigest spells its digest back: distinct digests give distinct
      hashes. */
  lemma {:induction false} HexDigestRoundTrip(d: seq<Byte>)
    ensures Unhex(HexDigest(d)) == d
  {
    if d != [] {
      HexDigestRoundTrip(d[1..]);
      var r := HexDigest(d);
      assert r[2..] == HexDigest(d[1..]);
    }
  }
}
