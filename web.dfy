/** What the scraper sees of the web: a question page reduced to the pieces
    its BeautifulSoup look-ups locate, and an HTTP client whose answers come
    from the server (an oracle) and whose requests are recorded in order. */
module Web {
  import opened Sequences

  type Bytes = seq<bv8>

  /** One `div.box-select` choice container: the text of its
      `span.choice-header`, when it has one, and the texts of all its `span`
      descendants in document order (the header span usually among them). */
  datatype ChoiceBox = ChoiceBox(header: Option<string>, spans: seq<string>)

  /** One `div.box-quiz-image mb-32` container: either it holds no `img`, or
      an `img` whose `src` attribute is present or absent. */
  datatype ImageBox = NoImage | Image(src: Option<string>)

  /** A parsed question page: the first `span.button-small-line` (category),
      the first `div.quiz-body mb-64` (problem), every choice container, the
      texts of every `h4`, the first `div.explanation`, and every image
      container, each text as the element's `.text`. */
  datatype Page = Page(
    category: Option<string>,
    problem: Option<string>,
    choiceBoxes: seq<ChoiceBox>,
    headings: seq<string>,
    explanation: Option<string>,
    imageBoxes: seq<ImageBox>)

  /** The outcome of fetching and parsing a question page: an exception was
      raised (connection failure, undecodable body), or the server answered
      with a status code and, when parsed, this page. */
  datatype PageFetch = PageRaised | PageResponse(status: int, page: Page)

  /** The outcome of fetching an image: an exception with its message, or a
      status code and the body bytes. */
  datatype ImageFetch = ImageRaised(message: string) | ImageResponse(status: int, content: Bytes)

  /** The `requests.get` calls of one run. The servers' answers are fixed
      functions of the address; `log` lists every address requested, in order. */
  class Http {
    const pageAt: string -> PageFetch
    const imageAt: string -> ImageFetch
    var log: seq<string>

    constructor (pageAt: string -> PageFetch, imageAt: string -> ImageFetch)
      ensures this.pageAt == pageAt && this.imageAt == imageAt && log == []
    {
      this.pageAt := pageAt;
      this.imageAt := imageAt;
      log := [];
    }

    method GetPage(url: string) returns (r: PageFetch)
      modifies this
      ensures r == pageAt(url)
      ensures log == old(log) + [url]
    {
      r := pageAt(url);
      log := log + [url];
    }

    method GetImage(url: string) returns (r: ImageFetch)
      modifies this
      ensures r == imageAt(url)
      ensures log == old(log) + [url]
    {
      r := imageAt(url);
      log := log + [url];
    }
  }
}
