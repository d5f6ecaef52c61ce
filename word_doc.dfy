/** Document assembly (`create_word_doc`): the Word document is modelled as
    the sequence of paragraphs appended to it, and image downloads go through
    the recorded HTTP client. */
module WordDoc {
  import opened Sequences
  import opened Text
  import opened Web
  import opened Extract

  /** The paragraph styles the scraper uses. */
  datatype Style = Normal | Heading2

  /** A paragraph of the document: a heading added with `add_heading`, a text
      paragraph added with `add_paragraph`, or the paragraph holding a picture. */
  datatype Paragraph =
    | Heading(text: string, level: nat)
    | Para(text: string, style: Style)
    | Picture(image: Bytes)

  const Title: string := "検索結果"

  /** `"-" * 50`. */
  const Separator: string := "--------------------------------------------------"

  /** A python-docx document. The library's image-format recognition is an
      oracle: `pictureError(bytes)` is the message of the exception that
      `add_picture` raises for those bytes, or None when they embed. */
  class Document {
    const pictureError: Bytes -> Option<string>
    var paragraphs: seq<Paragraph>

    constructor (pictureError: Bytes -> Option<string>)
      ensures this.pictureError == pictureError && paragraphs == []
    {
      this.pictureError := pictureError;
      paragraphs := [];
    }

    method AddHeading(text: string, level: nat)
      modifies this
      ensures paragraphs == old(paragraphs) + [Heading(text, level)]
    {
      paragraphs := paragraphs + [Heading(text, level)];
    }

    method AddParagraph(text: string, style: Style)
      modifies this
      ensures paragraphs == old(paragraphs) + [Para(text, style)]
    {
      paragraphs := paragraphs + [Para(text, style)];
    }

    /** `add_picture` first opens a new paragraph and then places the image in
        it; unrecognised bytes raise after the paragraph exists, leaving it empty. */
    method AddPicture(image: Bytes) returns (error: Option<string>)
      modifies this
      ensures error == pictureError(image)
      ensures paragraphs == old(paragraphs) + [if error.None? then Picture(image) else Para("", Normal)]
    {
      error := pictureError(image);
      paragraphs := paragraphs + [if error.None? then Picture(image) else Para("", Normal)];
    }
  }

  predicate IsSectionHeading(p: Paragraph) {
    p.Para? && p.style == Heading2
  }

  function TextOf(p: Paragraph): string {
    if p.Picture? then "" else p.text
  }

  predicate IsPicture(p: Paragraph) {
    p.Picture?
  }

  function ImageOf(p: Paragraph): Bytes {
    if p.Picture? then p.image else []
  }

  /** The note written when the image request raised: a Normal paragraph
      ending with the exception's message. */
  function ImageErrorNote(message: string): (p: Paragraph)
    ensures p.Para? && p.style == Normal && |p.text| >= |message|
    ensures p.text[|p.text| - |message|..] == message
  {
    Para("画像取得中エラー: " + message, Normal)
  }

  /** The paragraphs one image adds. Status 200: an empty paragraph, then the
      picture (or, when the bytes are not an image, the empty paragraph
      `add_picture` left and the error note). Another status: one note naming
      the address. A raised request: one note with the exception's message. */
  function ImageBlock(url: string, outcome: ImageFetch, pictureError: Bytes -> Option<string>): (r: seq<Paragraph>)
    ensures 1 <= |r| <= 3
    ensures |r| > 1 <==> outcome.ImageResponse? && outcome.status == 200
    ensures |r| > 1 ==> r[0] == Para("", Normal)
    ensures r[|r| - 1].Picture? <==> Embeds(outcome, pictureError)
    ensures r[|r| - 1].Picture? ==> r[|r| - 1].image == outcome.content
    ensures !IsSectionHeading(r[0]) && !IsSectionHeading(r[|r| - 1])
  {
    match outcome
    case ImageRaised(message) => [ImageErrorNote(message)]
    case ImageResponse(status, content) =>
      if status == 200 then
        match pictureError(content)
        case None => [Para("", Normal), Picture(content)]
        case Some(message) => [Para("", Normal), Para("", Normal), ImageErrorNote(message)]
      else [Para("画像取得失敗: " + url, Normal)]
  }

  /** The paragraphs of a record's images, in order: one to three per image. */
  function ImageParagraphs(urls: seq<string>, imageAt: string -> ImageFetch, pictureError: Bytes -> Option<string>): (r: seq<Paragraph>)
    ensures |urls| <= |r| <= 3 * |urls|
    decreases |urls|
  {
    if urls == [] then []
    else
      var last := urls[|urls| - 1];
      ImageParagraphs(urls[..|urls| - 1], imageAt, pictureError) + ImageBlock(last, imageAt(last), pictureError)
  }

  /** One plain paragraph per choice, verbatim. */
  function ChoiceParagraphs(choices: seq<string>): (r: seq<Paragraph>)
    ensures |r| == |choices|
  {
    if choices == [] then []
    else ChoiceParagraphs(choices[..|choices| - 1]) + [Para(choices[|choices| - 1], Normal)]
  }

  /** `f"問題{idx} {page_data['question_id']}"`: the title starts with "問題"
      and ends with a space and the question code. */
  function SectionTitle(n: nat, rec: Record): (t: string)
    ensures |t| >= 4 + |rec.questionId|
    ensures t[..2] == "問題" && t[|t| - |rec.questionId| - 1..] == " " + rec.questionId
  {
    var t := "問題" + DecimalString(n) + " " + rec.questionId;
    assert t[..2] == "問題";
    assert t[|t| - |rec.questionId| - 1..] == " " + rec.questionId;
    t
  }

  /** The digits between "問題" and the space read back as the section's number. */
  lemma SectionTitleNumber(n: nat, rec: Record)
    ensures var t := SectionTitle(n, rec);
      var digits := t[2..|t| - |rec.questionId| - 1];
      && (forall i :: 0 <= i < |digits| ==> IsAsciiDigit(digits[i]))
      && DecimalValue(digits) == n
  {
    var t := SectionTitle(n, rec);
    assert t[2..|t| - |rec.questionId| - 1] == DecimalString(n);
    DecimalRoundTrip(n);
  }

  /** The images block is written only when images are included and the
      record has some; then it holds one to three paragraphs per image. */
  function SectionImages(rec: Record, includeImages: bool, imageAt: string -> ImageFetch, pictureError: Bytes -> Option<string>): (r: seq<Paragraph>)
    ensures !includeImages ==> r == []
    ensures includeImages ==> |rec.images| <= |r| <= 3 * |rec.images|
  {
    if includeImages && rec.images != [] then ImageParagraphs(rec.images, imageAt, pictureError) else []
  }

  /** The section title (style Heading 2) and the problem statement: the
      section's one heading, carrying its title, then a plain paragraph. */
  function SectionHead(n: nat, rec: Record): (r: seq<Paragraph>)
    ensures |r| == 2 && IsSectionHeading(r[0]) && TextOf(r[0]) == SectionTitle(n, rec)
    ensures !IsSectionHeading(r[1]) && !IsPicture(r[1])
  {
    [Para(SectionTitle(n, rec), Heading2), Para("問題文: " + rec.problem, Normal)]
  }

  /** The choices block, the answer, the explanation and the separator line:
      the "選択肢:" label, one paragraph per choice, then the answer, the
      explanation and the separator. */
  function SectionTail(rec: Record): (r: seq<Paragraph>)
    ensures |r| == 4 + |rec.choices|
    ensures r[0] == Para("選択肢:", Normal)
    ensures r[|r| - 3] == Para(rec.answer, Normal)
    ensures r[|r| - 2] == Para("解説: " + rec.explanation, Normal)
    ensures r[|r| - 1] == Para(Separator, Normal)
  {
    ChoiceParagraphsVerbatim(rec.choices);
    [Para("選択肢:", Normal)]
    + ChoiceParagraphs(rec.choices)
    + [Para(rec.answer, Normal), Para("解説: " + rec.explanation, Normal), Para(Separator, Normal)]
  }

  /** The section of the n-th record (counting from 1): it opens with its
      title heading and the problem and closes with the separator line. */
  function Section(n: nat, rec: Record, includeImages: bool, imageAt: string -> ImageFetch, pictureError: Bytes -> Option<string>): (r: seq<Paragraph>)
    ensures |r| >= 6 + |rec.choices|
    ensures r[0] == Para(SectionTitle(n, rec), Heading2)
    ensures r[1] == Para("問題文: " + rec.problem, Normal)
    ensures r[|r| - 1] == Para(Separator, Normal)
  {
    SectionHead(n, rec) + SectionImages(rec, includeImages, imageAt, pictureError) + SectionTail(rec)
  }

  /** The sections of all records, numbered from 1 in input order. */
  function Sections(records: seq<Record>, includeImages: bool, imageAt: string -> ImageFetch, pictureError: Bytes -> Option<string>): (r: seq<Paragraph>)
    ensures |r| >= 6 * |records|
    decreases |records|
  {
    if records == [] then []
    else
      Sections(records[..|records| - 1], includeImages, imageAt, pictureError)
      + Section(|records|, records[|records| - 1], includeImages, imageAt, pictureError)
  }

  /** The title heading and the count line `取得問題数: …問`. */
  function Header(count: nat): (r: seq<Paragraph>)
    ensures |r| == 2 && r[0] == Heading(Title, 0)
    ensures r[1].Para? && r[1].style == Normal && |r[1].text| >= 8
    ensures r[1].text[..7] == "取得問題数: " && r[1].text[|r[1].text| - 1] == '問'
  {
    var line := "取得問題数: " + DecimalString(count) + "問";
    assert line[..7] == "取得問題数: ";
    [Heading(Title, 0), Para(line, Normal)]
  }

  /** The digits of the count line read back as the count. */
  lemma HeaderCount(count: nat)
    ensures var text := Header(count)[1].text;
      var digits := text[7..|text| - 1];
      && (forall i :: 0 <= i < |digits| ==> IsAsciiDigit(digits[i]))
      && DecimalValue(digits) == count
  {
    var text := Header(count)[1].text;
    assert text[7..|text| - 1] == DecimalString(count);
    DecimalRoundTrip(count);
  }

  /** The whole document for a list of records: the header, then at least six
      paragraphs per record. */
  function DocParagraphs(records: seq<Record>, includeImages: bool, imageAt: string -> ImageFetch, pictureError: Bytes -> Option<string>): (r: seq<Paragraph>)
    ensures |r| >= 2 + 6 * |records|
    ensures r[..2] == Header(|records|)
  {
    Header(|records|) + Sections(records, includeImages, imageAt, pictureError)
  }

  /** Every choice becomes one Normal paragraph holding exactly its text, in order. */
  lemma {:induction false} ChoiceParagraphsVerbatim(choices: seq<string>)
    ensures var ps := ChoiceParagraphs(choices);
      && |ps| == |choices|
      && forall i :: 0 <= i < |ps| ==> ps[i] == Para(choices[i], Normal)
    decreases |choices|
  {
    if choices != [] {
      ChoiceParagraphsVerbatim(choices[..|choices| - 1]);
    }
  }

  /** No paragraph of ps has the section-heading style. */
  predicate NoSectionHeading(ps: seq<Paragraph>) {
    forall i :: 0 <= i < |ps| ==> !IsSectionHeading(ps[i])
  }

  /** Every paragraph of ps is Normal text. */
  predicate AllNormalText(ps: seq<Paragraph>) {
    forall i :: 0 <= i < |ps| ==> ps[i].Para? && ps[i].style == Normal
  }

  /** The closing part of a section is all Normal text. */
  lemma SectionTailIsNormal(rec: Record)
    ensures AllNormalText(SectionTail(rec))
  {
    ChoiceParagraphsVerbatim(rec.choices);
  }

  /** Image paragraphs never carry the section-heading style. */
  lemma {:induction false} ImageParagraphsPlain(urls: seq<string>, imageAt: string -> ImageFetch, pictureError: Bytes -> Option<string>)
    ensures NoSectionHeading(ImageParagraphs(urls, imageAt, pictureError))
    decreases |urls|
  {
    if urls != [] {
      var last := urls[|urls| - 1];
      ImageParagraphsPlain(urls[..|urls| - 1], imageAt, pictureError);
      var front := ImageParagraphs(urls[..|urls| - 1], imageAt, pictureError);
      var block := ImageBlock(last, imageAt(last), pictureError);
      assert forall i :: 0 <= i < |block| ==> !IsSectionHeading(block[i]);
      var ps := front + block;
      assert ps == ImageParagraphs(urls, imageAt, pictureError);
      forall i | 0 <= i < |ps| ensures !IsSectionHeading(ps[i]) {
        if i < |front| {
          assert ps[i] == front[i];
        } else {
          assert ps[i] == block[i - |front|];
        }
      }
    }
  }

  /** The image addresses requested while assembling, in order. */
  function ImageRequests(records: seq<Record>, includeImages: bool): (r: seq<string>)
    ensures !includeImages ==> r == []
    decreases |records|
  {
    if records == [] then []
    else
      var last := records[|records| - 1];
      ImageRequests(records[..|records| - 1], includeImages) + (if includeImages && last.images != [] then last.images else [])
  }

  /** Every image address of every record, in order. */
  function AllImages(records: seq<Record>): seq<string>
    decreases |records|
  {
    if records == [] then [] else AllImages(records[..|records| - 1]) + records[|records| - 1].images
  }

  /** Without images nothing is requested; with images, exactly the records'
      image addresses are requested, each once, in record order. */
  lemma {:induction false} ImageRequestsRule(records: seq<Record>)
    ensures ImageRequests(records, false) == []
    ensures ImageRequests(records, true) == AllImages(records)
    decreases |records|
  {
    if records != [] {
      ImageRequestsRule(records[..|records| - 1]);
    }
  }

  /** The titles of the section headings. */
  function SectionHeadings(ps: seq<Paragraph>): seq<string> {
    FilterMap(ps, IsSectionHeading, TextOf)
  }

  /** The pictures embedded. */
  function Pictures(ps: seq<Paragraph>): seq<Bytes> {
    FilterMap(ps, IsPicture, ImageOf)
  }

  /** Each section holds exactly one section heading, its first paragraph. */
  lemma SectionHasOneHeading(n: nat, rec: Record, includeImages: bool, imageAt: string -> ImageFetch, pictureError: Bytes -> Option<string>)
    ensures SectionHeadings(Section(n, rec, includeImages, imageAt, pictureError)) == [SectionTitle(n, rec)]
  {
    var images := SectionImages(rec, includeImages, imageAt, pictureError);
    if includeImages && rec.images != [] {
      ImageParagraphsPlain(rec.images, imageAt, pictureError);
    }
    SectionTailIsNormal(rec);
    OneLeadingHeading(SectionHead(n, rec), images, SectionTail(rec));
  }

  /** A heading, a plain paragraph, then paragraphs with no heading among them
      carry exactly the first one's title. */
  lemma OneLeadingHeading(head: seq<Paragraph>, images: seq<Paragraph>, tail: seq<Paragraph>)
    requires |head| == 2 && IsSectionHeading(head[0]) && !IsSectionHeading(head[1])
    requires NoSectionHeading(images) && AllNormalText(tail)
    ensures SectionHeadings(head + images + tail) == [TextOf(head[0])]
  {
    FilterMapAppend(head + images, tail, IsSectionHeading, TextOf);
    FilterMapAppend(head, images, IsSectionHeading, TextOf);
    assert head == [head[0]] + [head[1]];
    FilterMapAppend([head[0]], [head[1]], IsSectionHeading, TextOf);
    FilterMapSingle(head[0], IsSectionHeading, TextOf);
    FilterMapSingle(head[1], IsSectionHeading, TextOf);
    FilterMapNoneKept(images, IsSectionHeading, TextOf);
    FilterMapNoneKept(tail, IsSectionHeading, TextOf);
  }

  /** Section order: the document has exactly one section heading per
      record, and the k-th names the k-th record with number k + 1. */
  lemma {:induction false} SectionsInOrder(records: seq<Record>, includeImages: bool, imageAt: string -> ImageFetch, pictureError: Bytes -> Option<string>)
    ensures var titles := SectionHeadings(DocParagraphs(records, includeImages, imageAt, pictureError));
      && |titles| == |records|
      && forall k :: 0 <= k < |records| ==> titles[k] == SectionTitle(k + 1, records[k])
    decreases |records|
  {
    var header := Header(|records|);
    var body := Sections(records, includeImages, imageAt, pictureError);
    FilterMapAppend(header, body, IsSectionHeading, TextOf);
    FilterMapNoneKept(header, IsSectionHeading, TextOf);
    SectionTitlesInOrder(records, includeImages, imageAt, pictureError);
  }

  lemma {:induction false} SectionTitlesInOrder(records: seq<Record>, includeImages: bool, imageAt: string -> ImageFetch, pictureError: Bytes -> Option<string>)
    ensures var titles := SectionHeadings(Sections(records, includeImages, imageAt, pictureError));
      && |titles| == |records|
      && forall k :: 0 <= k < |records| ==> titles[k] == SectionTitle(k + 1, records[k])
  {
    SectionHeadingsOfSections(records, includeImages, imageAt, pictureError);
    SectionTitlesNumbered(records);
  }

  /** The titles of the records' sections, in order. */
  function SectionTitles(records: seq<Record>): seq<string>
    decreases |records|
  {
    if records == [] then []
    else SectionTitles(records[..|records| - 1]) + [SectionTitle(|records|, records[|records| - 1])]
  }

  lemma {:induction false} SectionHeadingsOfSections(records: seq<Record>, includeImages: bool, imageAt: string -> ImageFetch, pictureError: Bytes -> Option<string>)
    ensures SectionHeadings(Sections(records, includeImages, imageAt, pictureError)) == SectionTitles(records)
    decreases |records|
  {
    if records != [] {
      var n := |records|;
      var init := records[..n - 1];
      SectionHeadingsOfSections(init, includeImages, imageAt, pictureError);
      FilterMapAppend(Sections(init, includeImages, imageAt, pictureError), Section(n, records[n - 1], includeImages, imageAt, pictureError), IsSectionHeading, TextOf);
      SectionHasOneHeading(n, records[n - 1], includeImages, imageAt, pictureError);
    }
  }

  lemma {:induction false} SectionTitlesNumbered(records: seq<Record>)
    ensures |SectionTitles(records)| == |records|
    ensures forall k :: 0 <= k < |records| ==> SectionTitles(records)[k] == SectionTitle(k + 1, records[k])
    decreases |records|
  {
    if records != [] {
      var n := |records|;
      var init := records[..n - 1];
      SectionTitlesNumbered(init);
      assert forall k :: 0 <= k < n - 1 ==> init[k] == records[k];
    }
  }

  /** Whether an image fetched with this outcome ends up embedded. */
  predicate Embeds(outcome: ImageFetch, pictureError: Bytes -> Option<string>) {
    outcome.ImageResponse? && outcome.status == 200 && pictureError(outcome.content).None?
  }

  /** Images embedded by the pictures of an address list: those answered with
      status 200 whose bytes the library accepts. */
  function EmbeddedImages(urls: seq<string>, imageAt: string -> ImageFetch, pictureError: Bytes -> Option<string>): seq<Bytes>
    decreases |urls|
  {
    if urls == [] then []
    else
      var last := imageAt(urls[|urls| - 1]);
      EmbeddedImages(urls[..|urls| - 1], imageAt, pictureError)
      + (if Embeds(last, pictureError) then [last.content] else [])
  }

  lemma {:induction false} EmbeddedImagesAppend(xs: seq<string>, ys: seq<string>, imageAt: string -> ImageFetch, pictureError: Bytes -> Option<string>)
    ensures EmbeddedImages(xs + ys, imageAt, pictureError) == EmbeddedImages(xs, imageAt, pictureError) + EmbeddedImages(ys, imageAt, pictureError)
    decreases |ys|
  {
    if ys == [] {
      assert xs + ys == xs;
    } else {
      var init := ys[..|ys| - 1];
      assert (xs + ys)[..|xs + ys| - 1] == xs + init;
      assert (xs + ys)[|xs + ys| - 1] == ys[|ys| - 1];
      EmbeddedImagesAppend(xs, init, imageAt, pictureError);
    }
  }

  /** One image block holds a picture exactly when the image embeds, and then
      it holds that image's bytes. */
  lemma ImageBlockPictures(url: string, outcome: ImageFetch, pictureError: Bytes -> Option<string>)
    ensures Pictures(ImageBlock(url, outcome, pictureError))
      == if Embeds(outcome, pictureError) then [outcome.content] else []
  {
    var block := ImageBlock(url, outcome, pictureError);
    if Embeds(outcome, pictureError) {
      assert block == [block[0]] + [block[1]];
      FilterMapAppend([block[0]], [block[1]], IsPicture, ImageOf);
      FilterMapSingle(block[0], IsPicture, ImageOf);
      FilterMapSingle(block[1], IsPicture, ImageOf);
    } else {
      assert forall i :: 0 <= i < |block| ==> !IsPicture(block[i]);
      FilterMapNoneKept(block, IsPicture, ImageOf);
    }
  }

  /** The pictures of an image block are exactly the embedded images of its addresses. */
  lemma {:induction false} ImageParagraphsPictures(urls: seq<string>, imageAt: string -> ImageFetch, pictureError: Bytes -> Option<string>)
    ensures Pictures(ImageParagraphs(urls, imageAt, pictureError)) == EmbeddedImages(urls, imageAt, pictureError)
    decreases |urls|
  {
    if urls != [] {
      var init := urls[..|urls| - 1];
      var last := urls[|urls| - 1];
      ImageParagraphsPictures(init, imageAt, pictureError);
      FilterMapAppend(ImageParagraphs(init, imageAt, pictureError), ImageBlock(last, imageAt(last), pictureError), IsPicture, ImageOf);
      ImageBlockPictures(last, imageAt(last), pictureError);
    }
  }

  /** The pictures of a section are those of its image block. */
  lemma SectionPictures(n: nat, rec: Record, includeImages: bool, imageAt: string -> ImageFetch, pictureError: Bytes -> Option<string>)
    ensures Pictures(Section(n, rec, includeImages, imageAt, pictureError))
      == EmbeddedImages(if includeImages && rec.images != [] then rec.images else [], imageAt, pictureError)
  {
    var images := SectionImages(rec, includeImages, imageAt, pictureError);
    SectionTailIsNormal(rec);
    PicturesBetweenText(SectionHead(n, rec), images, SectionTail(rec));
    if includeImages && rec.images != [] {
      ImageParagraphsPictures(rec.images, imageAt, pictureError);
    }
  }

  /** Text paragraphs around a block contribute no picture. */
  lemma PicturesBetweenText(head: seq<Paragraph>, images: seq<Paragraph>, tail: seq<Paragraph>)
    requires forall i :: 0 <= i < |head| ==> !IsPicture(head[i])
    requires AllNormalText(tail)
    ensures Pictures(head + images + tail) == Pictures(images)
  {
    FilterMapAppend(head + images, tail, IsPicture, ImageOf);
    FilterMapAppend(head, images, IsPicture, ImageOf);
    FilterMapNoneKept(head, IsPicture, ImageOf);
    FilterMapNoneKept(tail, IsPicture, ImageOf);
  }

  /** The document embeds one picture for every requested image answered with
      status 200 whose bytes the library accepts, in request order, and no other. */
  lemma {:induction false} DocumentPictures(records: seq<Record>, includeImages: bool, imageAt: string -> ImageFetch, pictureError: Bytes -> Option<string>)
    ensures Pictures(DocParagraphs(records, includeImages, imageAt, pictureError))
      == EmbeddedImages(ImageRequests(records, includeImages), imageAt, pictureError)
  {
    var header := Header(|records|);
    FilterMapAppend(header, Sections(records, includeImages, imageAt, pictureError), IsPicture, ImageOf);
    FilterMapNoneKept(header, IsPicture, ImageOf);
    SectionsPictures(records, includeImages, imageAt, pictureError);
  }

  lemma {:induction false} SectionsPictures(records: seq<Record>, includeImages: bool, imageAt: string -> ImageFetch, pictureError: Bytes -> Option<string>)
    ensures Pictures(Sections(records, includeImages, imageAt, pictureError))
      == EmbeddedImages(ImageRequests(records, includeImages), imageAt, pictureError)
    decreases |records|
  {
    if records != [] {
      var n := |records|;
      var init := records[..n - 1];
      var last := records[n - 1];
      var before := Sections(init, includeImages, imageAt, pictureError);
      var section := Section(n, last, includeImages, imageAt, pictureError);
      var requests := if includeImages && last.images != [] then last.images else [];
      assert Sections(records, includeImages, imageAt, pictureError) == before + section;
      assert ImageRequests(records, includeImages) == ImageRequests(init, includeImages) + requests;
      SectionsPictures(init, includeImages, imageAt, pictureError);
      FilterMapAppend(before, section, IsPicture, ImageOf);
      SectionPictures(n, last, includeImages, imageAt, pictureError);
      EmbeddedImagesAppend(ImageRequests(init, includeImages), requests, imageAt, pictureError);
    }
  }

  /** Without images the document does not depend on what the image server would answer. */
  lemma {:induction false} NoImagesIgnoresServer(records: seq<Record>, imageAt: string -> ImageFetch, otherAt: string -> ImageFetch, pictureError: Bytes -> Option<string>)
    ensures DocParagraphs(records, false, imageAt, pictureError) == DocParagraphs(records, false, otherAt, pictureError)
  {
    SectionsIgnoreServer(records, imageAt, otherAt, pictureError);
  }

  lemma {:induction false} SectionsIgnoreServer(records: seq<Record>, imageAt: string -> ImageFetch, otherAt: string -> ImageFetch, pictureError: Bytes -> Option<string>)
    ensures Sections(records, false, imageAt, pictureError) == Sections(records, false, otherAt, pictureError)
    decreases |records|
  {
    if records != [] {
      SectionsIgnoreServer(records[..|records| - 1], imageAt, otherAt, pictureError);
    }
  }

  /** `create_word_doc(pages_data, search_query, include_images)`: builds the
      document paragraph by paragraph and names the file it would be saved to. */
  method CreateWordDoc(http: Http, pagesData: seq<Record>, searchQuery: string, includeImages: bool, pictureError: Bytes -> Option<string>)
    returns (doc: Document, filename: string)
    modifies http
    ensures fresh(doc)
    ensures doc.paragraphs == DocParagraphs(pagesData, includeImages, http.imageAt, pictureError)
    ensures http.log == old(http.log) + ImageRequests(pagesData, includeImages)
    ensures filename == searchQuery + "_search_results.docx"
  {
    doc := new Document(pictureError);
    doc.AddHeading(Title, 0);
    doc.AddParagraph("取得問題数: " + DecimalString(|pagesData|) + "問", Normal);
    assert doc.paragraphs == Header(|pagesData|);
    AddSections(doc, http, pagesData, includeImages);
    filename := searchQuery + "_search_results.docx";
  }

  /** The loop over the records, numbering them from 1. */
  method AddSections(doc: Document, http: Http, records: seq<Record>, includeImages: bool)
    modifies doc, http
    ensures doc.paragraphs == old(doc.paragraphs) + Sections(records, includeImages, http.imageAt, doc.pictureError)
    ensures http.log == old(http.log) + ImageRequests(records, includeImages)
  {
    assert records[..0] == [];
    for idx := 0 to |records|
      invariant doc.paragraphs == old(doc.paragraphs) + Sections(records[..idx], includeImages, http.imageAt, doc.pictureError)
      invariant http.log == old(http.log) + ImageRequests(records[..idx], includeImages)
    {
      ghost var done := doc.paragraphs;
      ghost var logged := http.log;
      AddSection(doc, http, idx + 1, records[idx], includeImages);
      SectionsGrow(old(doc.paragraphs), done, records, idx, includeImages, http.imageAt, doc.pictureError);
      RequestsGrow(old(http.log), logged, records, idx, includeImages);
    }
    assert records[..|records|] == records;
  }

  /** Appending the next record's section to the sections written so far
      gives the sections of one more record. */
  lemma SectionsGrow(base: seq<Paragraph>, done: seq<Paragraph>, records: seq<Record>, idx: nat, includeImages: bool, imageAt: string -> ImageFetch, pictureError: Bytes -> Option<string>)
    requires idx < |records|
    requires done == base + Sections(records[..idx], includeImages, imageAt, pictureError)
    ensures done + Section(idx + 1, records[idx], includeImages, imageAt, pictureError)
      == base + Sections(records[..idx + 1], includeImages, imageAt, pictureError)
  {
    SectionsStep(records, idx, includeImages, imageAt, pictureError);
    AppendAssoc(base, Sections(records[..idx], includeImages, imageAt, pictureError), Section(idx + 1, records[idx], includeImages, imageAt, pictureError));
  }

  /** Appending the next record's image requests to those made so far gives
      the requests of one more record. */
  lemma RequestsGrow(base: seq<string>, done: seq<string>, records: seq<Record>, idx: nat, includeImages: bool)
    requires idx < |records|
    requires done == base + ImageRequests(records[..idx], includeImages)
    ensures done + (if includeImages && records[idx].images != [] then records[idx].images else [])
      == base + ImageRequests(records[..idx + 1], includeImages)
  {
    RequestsStep(records, idx, includeImages);
    AppendAssoc(base, ImageRequests(records[..idx], includeImages), if includeImages && records[idx].images != [] then records[idx].images else []);
  }

  /** One more record adds its section. */
  lemma SectionsStep(records: seq<Record>, idx: nat, includeImages: bool, imageAt: string -> ImageFetch, pictureError: Bytes -> Option<string>)
    requires idx < |records|
    ensures Sections(records[..idx + 1], includeImages, imageAt, pictureError)
      == Sections(records[..idx], includeImages, imageAt, pictureError) + Section(idx + 1, records[idx], includeImages, imageAt, pictureError)
  {
    assert records[..idx + 1][..idx] == records[..idx];
  }

  /** One more record adds its image requests. */
  lemma RequestsStep(records: seq<Record>, idx: nat, includeImages: bool)
    requires idx < |records|
    ensures ImageRequests(records[..idx + 1], includeImages)
      == ImageRequests(records[..idx], includeImages) + (if includeImages && records[idx].images != [] then records[idx].images else [])
  {
    assert records[..idx + 1][..idx] == records[..idx];
  }

  /** The body of the loop over records: the section of the n-th record. */
  method AddSection(doc: Document, http: Http, n: nat, pageData: Record, includeImages: bool)
    modifies doc, http
    ensures doc.paragraphs == old(doc.paragraphs) + Section(n, pageData, includeImages, http.imageAt, doc.pictureError)
    ensures http.log == old(http.log) + (if includeImages && pageData.images != [] then pageData.images else [])
  {
    var title := "問題" + DecimalString(n) + " " + pageData.questionId;
    doc.AddParagraph(title, Heading2);
    doc.AddParagraph("問題文: " + pageData.problem, Normal);
    ghost var afterHead := doc.paragraphs;
    assert afterHead == old(doc.paragraphs) + SectionHead(n, pageData);
    if includeImages && pageData.images != [] {
      AddImages(doc, http, pageData.images);
    }
    ghost var afterImages := doc.paragraphs;
    assert afterImages == afterHead + SectionImages(pageData, includeImages, http.imageAt, doc.pictureError);
    AddTail(doc, pageData);
    AppendAssoc(old(doc.paragraphs), SectionHead(n, pageData), SectionImages(pageData, includeImages, http.imageAt, doc.pictureError));
    AppendAssoc(old(doc.paragraphs), SectionHead(n, pageData) + SectionImages(pageData, includeImages, http.imageAt, doc.pictureError), SectionTail(pageData));
  }

  /** The loop over a record's image addresses. */
  method AddImages(doc: Document, http: Http, images: seq<string>)
    modifies doc, http
    ensures doc.paragraphs == old(doc.paragraphs) + ImageParagraphs(images, http.imageAt, doc.pictureError)
    ensures http.log == old(http.log) + images
  {
    for j := 0 to |images|
      invariant doc.paragraphs == old(doc.paragraphs) + ImageParagraphs(images[..j], http.imageAt, doc.pictureError)
      invariant http.log == old(http.log) + images[..j]
    {
      assert images[..j + 1][..j] == images[..j];
      AddImage(doc, http, images[j]);
      ghost var block := ImageBlock(images[j], http.imageAt(images[j]), doc.pictureError);
      assert ImageParagraphs(images[..j + 1], http.imageAt, doc.pictureError)
        == ImageParagraphs(images[..j], http.imageAt, doc.pictureError) + block;
      AppendAssoc(old(doc.paragraphs), ImageParagraphs(images[..j], http.imageAt, doc.pictureError), block);
      assert images[..j + 1] == images[..j] + [images[j]];
      AppendAssoc(old(http.log), images[..j], [images[j]]);
    }
    assert images[..|images|] == images;
  }

  /** One image: fetch it and write the picture or the note. */
  method AddImage(doc: Document, http: Http, imgUrl: string)
    modifies doc, http
    ensures doc.paragraphs == old(doc.paragraphs) + ImageBlock(imgUrl, http.imageAt(imgUrl), doc.pictureError)
    ensures http.log == old(http.log) + [imgUrl]
  {
    var response := http.GetImage(imgUrl);
    match response {
      case ImageRaised(message) =>
        doc.AddParagraph("画像取得中エラー: " + message, Normal);
      case ImageResponse(status, content) =>
        if status == 200 {
          doc.AddParagraph("", Normal);
          var error := doc.AddPicture(content);
          if error.Some? {
            doc.AddParagraph("画像取得中エラー: " + error.value, Normal);
          }
        } else {
          doc.AddParagraph("画像取得失敗: " + imgUrl, Normal);
        }
    }
  }

  /** The choices loop and the closing paragraphs of a section. */
  method AddTail(doc: Document, pageData: Record)
    modifies doc
    ensures doc.paragraphs == old(doc.paragraphs) + SectionTail(pageData)
  {
    doc.AddParagraph("選択肢:", Normal);
    var choices := pageData.choices;
    ghost var beforeChoices := doc.paragraphs;
    for j := 0 to |choices|
      invariant doc.paragraphs == beforeChoices + ChoiceParagraphs(choices[..j])
    {
      assert choices[..j + 1][..j] == choices[..j];
      doc.AddParagraph(choices[j], Normal);
    }
    assert choices[..|choices|] == choices;
    doc.AddParagraph(pageData.answer, Normal);
    doc.AddParagraph("解説: " + pageData.explanation, Normal);
    doc.AddParagraph(Separator, Normal);
  }
}
