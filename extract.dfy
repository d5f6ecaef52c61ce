/** Page-to-record extraction (`get_page_text`): one fetched question page
    becomes one record of seven text fields. */
module Extract {
  import opened Sequences
  import opened Text
  import opened QuestionCode
  import opened Thumbnail
  import opened Web

  // The fixed texts a record carries when a piece is missing or the fetch failed.
  const NoCategory: string := "分野名なし"
  const NoProblem: string := "問題文なし"
  const NoAnswer: string := "解答なし"
  const NoQuestionId: string := "問題番号なし"
  const NoExplanation: string := "解説なし"
  const FetchFailed: string := "取得失敗"
  const Errored: string := "エラー"

  /** The seven-key dictionary the scraper builds for each page. Every field
      is always present, holding extracted text or its sentinel. */
  datatype Record = Record(
    category: string,
    problem: string,
    choices: seq<string>,
    answer: string,
    questionId: string,
    explanation: string,
    images: seq<string>)

  /** The record returned when the page could not be obtained: the given
      category, no choices, no images, and every other field at its sentinel. */
  function Placeholder(category: string): (r: Record)
    ensures r.category == category && IsPlaceholder(r)
  {
    Record(category, NoProblem, [], NoAnswer, NoQuestionId, NoExplanation, [])
  }

  predicate IsPlaceholder(r: Record) {
    && r.problem == NoProblem && r.choices == [] && r.answer == NoAnswer
    && r.questionId == NoQuestionId && r.explanation == NoExplanation && r.images == []
  }

  /** `x.text.strip() if x else sentinel`: a missing element gives the
      sentinel; a present one gives its text without surrounding whitespace,
      which is empty exactly when the text is all whitespace. */
  function TextOr(t: Option<string>, sentinel: string): (r: string)
    ensures t.None? ==> r == sentinel
    ensures t.Some? ==> r == Strip(t.value)
    ensures t.Some? ==>
      && |r| <= |t.value|
      && (r == [] <==> AllSpace(t.value))
      && (r == [] || (!IsSpace(r[0]) && !IsSpace(r[|r| - 1])))
  {
    match t
    case Some(x) => StripEmptyIff(x); Strip(x)
    case None => sentinel
  }

  /** A choice container yields a line only when it has a header span and at
      least two spans; otherwise the look-up raises and the container is skipped. */
  predicate WellFormed(box: ChoiceBox) {
    box.header.Some? && |box.spans| >= 2
  }

  /** `f"{choice_header} {choice_text}"` for a well-formed container. */
  function ChoiceLine(box: ChoiceBox): string {
    if WellFormed(box) then Strip(box.header.value) + " " + Strip(box.spans[1]) else ""
  }

  /** The `choices` list: one line per well-formed container, in page order,
      so never more lines than containers. */
  function Choices(boxes: seq<ChoiceBox>): (r: seq<string>)
    ensures |r| <= |boxes|
  {
    FilterMap(boxes, WellFormed, ChoiceLine)
  }

  /** The image container holds an `img` with a non-empty `src`. */
  predicate HasSource(box: ImageBox) {
    box.Image? && box.src.Some? && box.src.value != ""
  }

  /** The full-size address of a container's image: never longer than its
      `src`, and empty for a container that has no image with a source. */
  function FullSizeUrl(box: ImageBox): (r: string)
    ensures HasSource(box) ==> |r| <= |box.src.value|
    ensures !HasSource(box) ==> r == ""
  {
    if HasSource(box) then RemoveMarkers(box.src.value) else ""
  }

  /** The `images` list: empty unless images are requested, then at most one
      address per container. */
  function ImageUrls(boxes: seq<ImageBox>, getImages: bool): (r: seq<string>)
    ensures |r| <= |boxes|
    ensures !getImages ==> r == []
  {
    if getImages then FilterMap(boxes, HasSource, FullSizeUrl) else []
  }

  /** The answer: the stripped first `h4` when there are at least two,
      otherwise the sentinel. */
  function Answer(headings: seq<string>): (r: string)
    ensures |headings| < 2 ==> r == NoAnswer
    ensures |headings| >= 2 ==>
      && |r| <= |headings[0]|
      && (r == [] || (!IsSpace(r[0]) && !IsSpace(r[|r| - 1])))
  {
    if |headings| >= 2 then Strip(headings[0]) else NoAnswer
  }

  /** The question code found in the (unstripped) second `h4`. The sentinel
      is not itself a code, so the result tells the two cases apart. */
  function QuestionId(headings: seq<string>): (r: string)
    ensures r == NoQuestionId || IsCode(r)
    ensures r != NoQuestionId <==> |headings| >= 2 && FindCode(headings[1]).Some?
  {
    if |headings| >= 2 && FindCode(headings[1]).Some? then
      assert !IsAsciiDigit(NoQuestionId[0]);
      FindCode(headings[1]).value
    else NoQuestionId
  }

  /** What `get_page_text` returns for one fetch outcome. Both failures give a
      full placeholder record, told apart by its category. */
  function PageRecord(fetch: PageFetch, getImages: bool): (r: Record)
    ensures fetch.PageRaised? ==> r.category == Errored && IsPlaceholder(r)
    ensures fetch.PageResponse? && fetch.status != 200 ==> r.category == FetchFailed && IsPlaceholder(r)
    ensures fetch.PageResponse? && fetch.status == 200 ==>
      var page := fetch.page;
      && (page.category.None? ==> r.category == NoCategory)
      && (page.category.Some? ==> r.category == Strip(page.category.value))
      && (page.problem.None? ==> r.problem == NoProblem)
      && (page.problem.Some? ==> r.problem == Strip(page.problem.value))
      && (page.explanation.None? ==> r.explanation == NoExplanation)
      && (page.explanation.Some? ==> r.explanation == Strip(page.explanation.value))
      && r.choices == Choices(page.choiceBoxes)
      && r.answer == Answer(page.headings)
      && r.questionId == QuestionId(page.headings)
      && r.images == ImageUrls(page.imageBoxes, getImages)
      && |r.choices| <= |page.choiceBoxes|
      && |r.images| <= |page.imageBoxes|
      && (!getImages ==> r.images == [])
    ensures r.questionId == NoQuestionId || IsCode(r.questionId)
  {
    match fetch
    case PageRaised => Placeholder(Errored)
    case PageResponse(status, page) =>
      if status != 200 then Placeholder(FetchFailed)
      else
        Record(
          TextOr(page.category, NoCategory),
          TextOr(page.problem, NoProblem),
          Choices(page.choiceBoxes),
          Answer(page.headings),
          QuestionId(page.headings),
          TextOr(page.explanation, NoExplanation),
          ImageUrls(page.imageBoxes, getImages))
  }

  /** Each choice line is `header + " " + second span`, both stripped, of a
      well-formed container; the containers are taken in page order and every
      well-formed one contributes. */
  lemma ChoicesOrigins(boxes: seq<ChoiceBox>) returns (origin: seq<nat>)
    ensures var lines := Choices(boxes);
      && |origin| == |lines|
      && (forall k :: 0 <= k < |origin| ==>
            && origin[k] < |boxes|
            && boxes[origin[k]].header.Some? && |boxes[origin[k]].spans| >= 2
            && lines[k] == Strip(boxes[origin[k]].header.value) + " " + Strip(boxes[origin[k]].spans[1]))
      && (forall k, l :: 0 <= k < l < |origin| ==> origin[k] < origin[l])
      && (forall j :: 0 <= j < |boxes| && WellFormed(boxes[j]) ==> j in origin)
  {
    origin := FilterMapOrigins(boxes, WellFormed, ChoiceLine);
  }

  /** A malformed container is skipped without disturbing the others. */
  lemma MalformedChoiceSkipped(before: seq<ChoiceBox>, box: ChoiceBox, after: seq<ChoiceBox>)
    requires box.header.None? || |box.spans| < 2
    ensures Choices(before + [box] + after) == Choices(before + after)
  {
    FilterMapSkip(before, box, after, WellFormed, ChoiceLine);
  }

  /** When every container is well formed there is exactly one line each. */
  lemma {:induction false} AllChoicesWellFormed(boxes: seq<ChoiceBox>)
    requires forall j :: 0 <= j < |boxes| ==> boxes[j].header.Some? && |boxes[j].spans| >= 2
    ensures |Choices(boxes)| == |boxes|
    ensures forall j :: 0 <= j < |boxes| ==>
      Choices(boxes)[j] == Strip(boxes[j].header.value) + " " + Strip(boxes[j].spans[1])
  {
    FilterMapAllKept(boxes, WellFormed, ChoiceLine);
    var lines := Choices(boxes);
    forall j | 0 <= j < |boxes|
      ensures lines[j] == Strip(boxes[j].header.value) + " " + Strip(boxes[j].spans[1])
    {
      assert lines[j] == ChoiceLine(boxes[j]);
    }
  }

  /** With images requested, each address is the `src` of an image container
      with every thumbnail marker removed, in page order, one for every
      container whose `img` has a non-empty `src`. */
  lemma ImageUrlsOrigins(boxes: seq<ImageBox>) returns (origin: seq<nat>)
    ensures var urls := ImageUrls(boxes, true);
      && |origin| == |urls|
      && (forall k :: 0 <= k < |origin| ==>
            && origin[k] < |boxes|
            && HasSource(boxes[origin[k]])
            && urls[k] == RemoveMarkers(boxes[origin[k]].src.value))
      && (forall k, l :: 0 <= k < l < |origin| ==> origin[k] < origin[l])
      && (forall j :: 0 <= j < |boxes| && HasSource(boxes[j]) ==> j in origin)
  {
    origin := FilterMapOrigins(boxes, HasSource, FullSizeUrl);
  }

  /** A page whose image containers hold no image with a source gives no
      address, requested or not. */
  lemma NoSourceNoImages(boxes: seq<ImageBox>, getImages: bool)
    requires forall j :: 0 <= j < |boxes| ==> !HasSource(boxes[j])
    ensures ImageUrls(boxes, getImages) == []
  {
    FilterMapNoneKept(boxes, HasSource, FullSizeUrl);
  }

  /** The answer and the question code keep their sentinels unless there are
      two headings; then the answer is the first heading, stripped. */
  lemma AnswerRule(headings: seq<string>)
    ensures |headings| < 2 ==> Answer(headings) == NoAnswer && QuestionId(headings) == NoQuestionId
    ensures |headings| >= 2 ==> Answer(headings) == Strip(headings[0])
    ensures |headings| >= 2 && FindCode(headings[1]).Some? ==>
      QuestionId(headings) == FindCode(headings[1]).value
  {
  }

  /** The loop over the choice containers: a container whose header or
      second span is missing raises inside the `try` and is skipped. */
  method CollectChoices(boxes: seq<ChoiceBox>) returns (choices: seq<string>)
    ensures choices == Choices(boxes)
  {
    choices := [];
    for i := 0 to |boxes|
      invariant choices == Choices(boxes[..i])
    {
      assert boxes[..i + 1] == boxes[..i] + [boxes[i]];
      FilterMapAppend(boxes[..i], [boxes[i]], WellFormed, ChoiceLine);
      FilterMapSingle(boxes[i], WellFormed, ChoiceLine);
      var box := boxes[i];
      if box.header.None? {
        continue;  // `.text` of the missing header raises
      }
      var header := Strip(box.header.value);
      if |box.spans| < 2 {
        continue;  // the second span does not exist
      }
      var text := Strip(box.spans[1]);
      choices := choices + [header + " " + text];
    }
    assert boxes[..|boxes|] == boxes;
  }

  /** The loop over the image containers, run only when images are requested. */
  method CollectImageUrls(divs: seq<ImageBox>, getImages: bool) returns (imageUrls: seq<string>)
    ensures imageUrls == ImageUrls(divs, getImages)
  {
    imageUrls := [];
    if getImages {
      for i := 0 to |divs|
        invariant imageUrls == FilterMap(divs[..i], HasSource, FullSizeUrl)
      {
        assert divs[..i + 1] == divs[..i] + [divs[i]];
        FilterMapAppend(divs[..i], [divs[i]], HasSource, FullSizeUrl);
        FilterMapSingle(divs[i], HasSource, FullSizeUrl);
        var div := divs[i];
        if div.Image? && div.src.Some? && div.src.value != "" {
          imageUrls := imageUrls + [RemoveMarkers(div.src.value)];
        }
      }
      assert divs[..|divs|] == divs;
    }
  }

  /** `get_page_text(url, get_images)`: one request, then the record. */
  method GetPageText(http: Http, url: string, getImages: bool) returns (r: Record)
    modifies http
    ensures http.log == old(http.log) + [url]
    ensures r == PageRecord(http.pageAt(url), getImages)
  {
    var response := http.GetPage(url);
    if response.PageRaised? {
      return Placeholder(Errored);
    }
    if response.status != 200 {
      return Placeholder(FetchFailed);
    }
    var page := response.page;
    var categoryName := TextOr(page.category, NoCategory);
    var problemText := TextOr(page.problem, NoProblem);
    var choices := CollectChoices(page.choiceBoxes);
    var answerText := NoAnswer;
    var questionId := NoQuestionId;
    if |page.headings| >= 2 {
      answerText := Strip(page.headings[0]);
      var found := FindCode(page.headings[1]);
      if found.Some? {
        questionId := found.value;
      }
    }
    var explanationText := TextOr(page.explanation, NoExplanation);
    var imageUrls := CollectImageUrls(page.imageBoxes, getImages);
    r := Record(categoryName, problemText, choices, answerText, questionId, explanationText, imageUrls);
  }
}
