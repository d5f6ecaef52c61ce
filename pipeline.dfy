/** One run of the app on an uploaded file: read the ids, build the
    addresses, fetch one record per address, and assemble the document. The
    progress bar, the pause between requests and the download button are
    user-interface effects and are not modelled. */
module Pipeline {
  import opened Sequences
  import opened Text
  import opened Urls
  import opened Web
  import opened Extract
  import opened WordDoc
  import opened Upload

  /** The search query under which the document is titled and saved. */
  const SearchQuery: string := "問題番号リスト"

  /** The records for a list of addresses, in address order: one per address. */
  function PagesData(urls: seq<string>, pageAt: string -> PageFetch, getImages: bool): (r: seq<Record>)
    ensures |r| == |urls|
  {
    MapAt(urls, (url: string) => PageRecord(pageAt(url), getImages));
    Map(urls, (url: string) => PageRecord(pageAt(url), getImages))
  }

  /** Fetching one more address appends its record to those already collected. */
  lemma PagesDataStep(urls: seq<string>, i: nat, pageAt: string -> PageFetch, getImages: bool)
    requires i < |urls|
    ensures PagesData(urls[..i + 1], pageAt, getImages)
      == PagesData(urls[..i], pageAt, getImages) + [PageRecord(pageAt(urls[i]), getImages)]
  {
    var prefix := urls[..i + 1];
    assert prefix[..|prefix| - 1] == urls[..i];
    assert prefix[|prefix| - 1] == urls[i];
  }

  /** Exactly one record per address, in address order: the k-th record is
      what the k-th page gave, and a failed fetch leaves its placeholder
      there rather than a gap. */
  lemma PagesDataAt(urls: seq<string>, pageAt: string -> PageFetch, getImages: bool)
    ensures |PagesData(urls, pageAt, getImages)| == |urls|
    ensures forall k :: 0 <= k < |urls| ==> PagesData(urls, pageAt, getImages)[k] == PageRecord(pageAt(urls[k]), getImages)
  {
    MapAt(urls, (url: string) => PageRecord(pageAt(url), getImages));
  }

  /** The driver loop: one page request and one record per address, in order. */
  method CollectPages(http: Http, urls: seq<string>, includeImages: bool) returns (pagesData: seq<Record>)
    modifies http
    ensures http.log == old(http.log) + urls
    ensures pagesData == PagesData(urls, http.pageAt, includeImages)
  {
    pagesData := [];
    assert urls[..0] == [];
    for i := 0 to |urls|
      invariant http.log == old(http.log) + urls[..i]
      invariant pagesData == PagesData(urls[..i], http.pageAt, includeImages)
    {
      var pageData := GetPageText(http, urls[i], includeImages);
      pagesData := pagesData + [pageData];
      PagesDataStep(urls, i, http.pageAt, includeImages);
      assert urls[..i + 1] == urls[..i] + [urls[i]];
      AppendAssoc(old(http.log), urls[..i], [urls[i]]);
    }
    assert urls[..|urls|] == urls;
  }

  /** The uploaded file's lines, the addresses, the records and the document
      of one run, with every request made, in order: first one per address,
      then the images of the records. */
  method ProcessUpload(http: Http, raw: Bytes, decode: (string, Bytes) -> Option<string>, includeImages: bool, pictureError: Bytes -> Option<string>)
    returns (idCount: nat, readFailed: bool, urls: seq<string>, pagesData: seq<Record>, doc: Document, filename: string)
    modifies http
    ensures readFailed <==> forall k :: 0 <= k < |Encodings| ==> decode(Encodings[k], raw).None?
    ensures idCount == |UploadLines(raw, decode)|
    ensures urls == GenerateUrls(UploadLines(raw, decode))
    ensures pagesData == PagesData(urls, http.pageAt, includeImages)
    ensures fresh(doc)
    ensures doc.paragraphs == DocParagraphs(pagesData, includeImages, http.imageAt, pictureError)
    ensures http.log == old(http.log) + urls + ImageRequests(pagesData, includeImages)
    ensures filename == SearchQuery + "_search_results.docx"
  {
    var questionIds;
    questionIds, readFailed := TryReadFile(raw, decode);
    idCount := |questionIds|;
    urls := GenerateUrls(questionIds);
    pagesData := CollectPages(http, urls, includeImages);
    doc, filename := CreateWordDoc(http, pagesData, SearchQuery, includeImages, pictureError);
  }

  /** The document of a run whose ids are the given lines: the header and at
      least six paragraphs per non-blank id. */
  function Report(ids: seq<string>, pageAt: string -> PageFetch, imageAt: string -> ImageFetch, includeImages: bool, pictureError: Bytes -> Option<string>): (r: seq<Paragraph>)
    ensures |r| >= 2 + 6 * |GenerateUrls(ids)|
  {
    DocParagraphs(PagesData(GenerateUrls(ids), pageAt, includeImages), includeImages, imageAt, pictureError)
  }

  /** An upload of blank lines (or one that could not be decoded) fetches
      nothing and yields only the title and a count of zero. */
  lemma BlankUploadGivesEmptyReport(ids: seq<string>, pageAt: string -> PageFetch, imageAt: string -> ImageFetch, includeImages: bool, pictureError: Bytes -> Option<string>)
    requires forall j :: 0 <= j < |ids| ==> AllSpace(ids[j])
    ensures GenerateUrls(ids) == []
    ensures ImageRequests(PagesData(GenerateUrls(ids), pageAt, includeImages), includeImages) == []
    ensures Report(ids, pageAt, imageAt, includeImages, pictureError)
      == [Heading(Title, 0), Para("取得問題数: 0問", Normal)]
  {
    AllBlankGivesNoUrls(ids);
    var records := PagesData([], pageAt, includeImages);
    assert DecimalString(0) == "0";
    assert "取得問題数: " + "0" + "問" == "取得問題数: 0問";
    assert DocParagraphs(records, includeImages, imageAt, pictureError) == Header(0) + [];
  }

  /** The report has one section per non-blank id, in upload order; the k-th
      is numbered k + 1 and names the record fetched from the k-th address. */
  lemma OneSectionPerId(ids: seq<string>, pageAt: string -> PageFetch, imageAt: string -> ImageFetch, includeImages: bool, pictureError: Bytes -> Option<string>)
    ensures var urls := GenerateUrls(ids);
      var titles := SectionHeadings(Report(ids, pageAt, imageAt, includeImages, pictureError));
      && |titles| == |urls|
      && forall k :: 0 <= k < |urls| ==>
           titles[k] == SectionTitle(k + 1, PageRecord(pageAt(urls[k]), includeImages))
  {
    var urls := GenerateUrls(ids);
    var records := PagesData(urls, pageAt, includeImages);
    PagesDataAt(urls, pageAt, includeImages);
    SectionsInOrder(records, includeImages, imageAt, pictureError);
  }

  /** The count line states, in decimal, the number of addresses fetched
      (not the number of lines read). */
  lemma CountLineIsUrlCount(ids: seq<string>, pageAt: string -> PageFetch, imageAt: string -> ImageFetch, includeImages: bool, pictureError: Bytes -> Option<string>)
    ensures var report := Report(ids, pageAt, imageAt, includeImages, pictureError);
      var digits := DecimalString(|GenerateUrls(ids)|);
      && |report| >= 2
      && report[1] == Para("取得問題数: " + digits + "問", Normal)
      && DecimalValue(digits) == |GenerateUrls(ids)|
  {
    PagesDataAt(GenerateUrls(ids), pageAt, includeImages);
    DecimalRoundTrip(|GenerateUrls(ids)|);
  }

  /** Without images nothing but the pages is requested, whatever the pages hold. */
  lemma NoImagesNoImageRequests(urls: seq<string>, pageAt: string -> PageFetch)
    ensures ImageRequests(PagesData(urls, pageAt, false), false) == []
  {
    ImageRequestsRule(PagesData(urls, pageAt, false));
  }
}
