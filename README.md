# medu4 question collector — a Dafny model

`getmedu4.py` is a small Streamlit app. It reads an uploaded list of medu4.com
question numbers and turns each into a page address. It fetches every page and
pulls out the category, problem text, choices, answer, exam question code,
explanation and image addresses. Then it writes everything into one Word
document: a title, a count line, and one section per question with its
pictures.

This project models that core in Dafny and proves properties of it:

- **Text** (`text.dfy`): Python's `str.strip()` with the `str.isspace` set,
  `str.splitlines()`, and the decimal rendering of a count in an f-string.
- **Urls** (`urls.dfy`): `generate_urls_from_ids`. Ids are stripped, blank
  ones are dropped, and the rest get the `https://medu4.com/` prefix.
- **QuestionCode** (`question_code.dfy`): the search
  `re.search(r'([0-9]{3}[A-Za-z][0-9]+)', …)`. It is a hand-written matcher:
  the leftmost start wins and the trailing digit run is greedy.
- **Thumbnail** (`thumbnail.dfy`): `src.replace('thumb_', '')`. It is written
  as a left-to-right scan and proved equal to the find-and-copy algorithm the
  library runs.
- **Web** (`web.dfy`): the abstract page that the BeautifulSoup look-ups
  locate, and an `Http` class. Its answers come from fixed server functions,
  and its `log` records every `requests.get` in order.
- **Extract** (`extract.dfy`): `get_page_text`. The specification is the
  function `PageRecord`. `GetPageText` is the imperative method, with the
  choice and image loops, proved against that function.
- **WordDoc** (`word_doc.dfy`): `create_word_doc`. A python-docx document is
  modelled as a `Document` class whose paragraph list grows one
  `add_heading`/`add_paragraph`/`add_picture` at a time. `CreateWordDoc` and
  its loops are proved against the layout function `DocParagraphs`.
- **Upload** (`upload.dfy`): `try_read_file`, the first-success fallback over
  seven encodings.
- **Indentation** (`indentation.dfy`): Python's indentation rule (section
  2.1.8 of the Python Language Reference), applied to the lines of
  `try_read_file` as written and as intended; see "## Findings".
- **Pipeline** (`pipeline.dfy`): the driver. It reads the ids, builds the
  addresses, keeps one record per address, and assembles the document.

Three behaviours of `getmedu4.py` worth noting:

- A page answered with a status other than 200, or whose fetch raised, is not
  dropped (`getmedu4.py:19-29`, `79-89`). It becomes a placeholder record,
  with category `取得失敗` or `エラー`, and gets its own section.
- When no encoding decodes the upload, the run is not halted
  (`getmedu4.py:149-150`). An error message is shown and the id list is
  empty, so no page is requested. The document still holds the title and the
  count `0`.
- No byte-order mark is sniffed. The encodings are tried in the fixed order
  of `getmedu4.py:135-141`, and the first that decodes wins
  (`getmedu4.py:144-148`).

The image server's answers are the oracle `imageAt`. Whether python-docx
accepts a picture's bytes is the oracle `pictureError`. `add_picture` first
opens a new paragraph and only then reads the image. So bytes it cannot
recognise leave an empty paragraph behind, and then the `except` branch writes
its note. The model writes the same three paragraphs.

## Model

| member | source | states |
|---|---|---|
| Sequences.FilterMap | getmedu4.py:13 | a comprehension with an `if` clause never yields more elements than its input |
| Sequences.FilterMapOrigins | getmedu4.py:13 | the comprehension's result is the image of exactly the kept elements, taken at strictly increasing positions, every kept element contributing |
| Sequences.FilterMapAppend | getmedu4.py:13 | filtering a concatenation filters each part in turn |
| Sequences.FilterMapSkip | getmedu4.py:13 | an element that the filter rejects can be removed from anywhere without changing the result |
| Sequences.FilterMapAllKept | getmedu4.py:13 | when every element is kept, the result is the element-wise image |
| Sequences.FilterMapNoneKept | getmedu4.py:13 | when no element is kept, the result is empty |
| Sequences.Map | getmedu4.py:159-163 | the `pages_data` list built one record per address has exactly as many records as addresses |
| Sequences.MapAt | getmedu4.py:159-163 | mapping each address to its record keeps the length and maps every position on its own |
| Text.IsSpace | getmedu4.py:13 | the characters `strip()` removes: those `str.isspace` accepts, tab to carriage return, the separators U+001C-U+001F, space, NEL, no-break space and the Unicode space separators, the ideographic space U+3000 among them |
| Text.StripLeading | getmedu4.py:13 | `lstrip` keeps a suffix, cuts only spaces, and what it keeps does not start with a space |
| Text.StripTrailing | getmedu4.py:13 | `rstrip` keeps a prefix, cuts only spaces, and what it keeps does not end with a space |
| Text.StripIsSlice | getmedu4.py:13 | `strip()` returns a contiguous middle slice of its argument |
| Text.StripCutsSpaces | getmedu4.py:13 | everything `strip()` removes, on either side, is whitespace |
| Text.Strip | getmedu4.py:13 | `strip()` never lengthens its argument, and a non-empty result neither starts nor ends with whitespace |
| Text.AllSpaceStripsAway | getmedu4.py:13 | a string of whitespace only is removed entirely by the leading strip |
| Text.StripEmptyIff | getmedu4.py:13 | `qid.strip()` is empty exactly when `qid` consists of whitespace only |
| Text.StripIdempotent | getmedu4.py:13 | stripping a stripped string changes nothing |
| Text.DecimalString | getmedu4.py:95 | the f-string rendering of a count is a non-empty string of ASCII digits without a leading zero |
| Text.DecimalRoundTrip | getmedu4.py:95 | the rendered count reads back as the count |
| Text.IsLineBreak | getmedu4.py:146 | the characters at which `splitlines()` ends a line: line feed, carriage return, U+000B, U+000C, U+001C-U+001E, NEL, U+2028 and U+2029 |
| Text.LineBreakIsSpace | getmedu4.py:13 | every character that ends a line is also one that `strip()` removes |
| Text.NextBreak | getmedu4.py:146 | the next line break at or after a position is the first one there |
| Text.SplitLines | getmedu4.py:146 | no line returned by `splitlines()` contains a line-break character |
| Text.SplitJoinRoundTrip | getmedu4.py:146 | splitting a file written one id per row gives back exactly the rows |
| Text.NextBreakIs | getmedu4.py:146 | the first break at or after `from` is at m when none lies between |
| QuestionCode.CodeAt | getmedu4.py:53 | the pattern `[0-9]{3}[A-Za-z][0-9]+` can start at a position: three ASCII digits, an ASCII letter and at least one ASCII digit |
| QuestionCode.DigitRunEnd | getmedu4.py:53 | the greedy `[0-9]+` stops at the end of the longest digit run |
| QuestionCode.SearchFrom | getmedu4.py:53 | the search finds the first position at or after `from` where the pattern starts, or reports that there is none |
| QuestionCode.FindCode | getmedu4.py:53-55 | a match exists exactly when the pattern starts somewhere, and the matched text is three digits, a letter and one or more digits |
| QuestionCode.FindCodeLeftmostLongest | getmedu4.py:53-55 | the match occurs in the text, no earlier position starts the pattern, and the match is not followed by a digit |
| QuestionCode.FindCodeExample | getmedu4.py:53-55 | "1234A5" gives "234A5", "第110A12問" gives "110A12", and the sentinel text gives no match |
| Thumbnail.ReplaceFrom | getmedu4.py:66 | the library's find-and-copy never lengthens the rest of the address, and each marker it finds takes the marker's whole length off |
| Thumbnail.RemoveMarkers | getmedu4.py:66 | removing the markers never lengthens an address |
| Thumbnail.FindMarker | getmedu4.py:66 | `str.find` reports the leftmost marker at or after a position, or that there is none |
| Thumbnail.ScanAgreesWithFind | getmedu4.py:66 | the left-to-right scan and the library's find-and-copy replacement give the same result on every string |
| Thumbnail.ScanAgreesFrom | getmedu4.py:66 | the scan and find-and-copy agree on every suffix |
| Thumbnail.ScanWithoutMarker | getmedu4.py:66 | with no marker left, both copy the rest unchanged |
| Thumbnail.ScanToMarker | getmedu4.py:66 | both copy up to the next marker and continue just past it |
| Thumbnail.SkipMarker | getmedu4.py:66 | a marker at the scan position is dropped whole |
| Thumbnail.CopyUntil | getmedu4.py:66 | a stretch in which no marker starts is copied unchanged |
| Thumbnail.KeepFirst | getmedu4.py:66 | a character where no marker starts is kept |
| Thumbnail.UnchangedIffNoMarker | getmedu4.py:66 | an address is left unchanged exactly when it contains no marker |
| Thumbnail.ShorterWithMarker | getmedu4.py:66 | an address containing a marker becomes strictly shorter |
| Thumbnail.MarkerChars | getmedu4.py:66 | a marker starts with the letters "thu" |
| Thumbnail.WithoutH | getmedu4.py:66 | an address without the letter 'h' is left unchanged |
| Thumbnail.SkipLeadingMarker | getmedu4.py:66 | a leading marker is removed and the rest is processed alone |
| Thumbnail.CopyPrefix | getmedu4.py:66 | a prefix in which no marker starts is kept verbatim in front of the rest's result |
| Thumbnail.LeadingMarkerOnly | getmedu4.py:66 | a marker followed by h-free text leaves just that text |
| Thumbnail.RewriteParts | getmedu4.py:66 | a marker-free host, then a marker, then h-free text, gives the host followed by the text |
| Thumbnail.ExampleHostHasNoMarker | getmedu4.py:66 | no marker starts inside the host part "https://x/" |
| Thumbnail.ExampleParts | getmedu4.py:66 | the example address splits into host, marker and file name |
| Thumbnail.RewriteExample | getmedu4.py:66 | "https://x/thumb_abc.jpg" becomes "https://x/abc.jpg" |
| Thumbnail.NotIdempotent | getmedu4.py:66 | "ththumb_umb_" becomes "thumb_", which a second rewrite would change again, so the rewrite is not idempotent |
| Urls.IsNonBlank | getmedu4.py:13 | the comprehension's filter `qid.strip()` keeps an id exactly when it holds a character other than whitespace |
| Urls.PageUrl | getmedu4.py:13 | an address starts with `https://medu4.com/`; for a kept id, the part after it is non-empty and has no surrounding whitespace |
| Urls.GenerateUrls | getmedu4.py:11-13 | there are never more addresses than ids |
| Urls.GenerateUrlsOrigins | getmedu4.py:11-13 | each address is the base followed by a stripped, non-blank id, in input order, and every non-blank id (duplicates included) gives one |
| Urls.GeneratedUrlShape | getmedu4.py:11-13 | each address starts with the base, and the id after it is non-empty with no surrounding whitespace |
| Urls.BlankIdDropped | getmedu4.py:11-13 | a whitespace-only id is dropped wherever it stands |
| Urls.GenerateUrlsAppend | getmedu4.py:11-13 | the addresses of consecutive batches of ids are the batches' addresses in turn |
| Urls.AllBlankGivesNoUrls | getmedu4.py:11-13 | a list of blank lines gives no address |
| Web.Http.constructor | getmedu4.py:18 | a client starts with the given servers and no request made |
| Web.Http.GetPage | getmedu4.py:18 | a page request returns the server's answer for the address and is logged |
| Web.Http.GetImage | getmedu4.py:105 | an image request returns the server's answer for the address and is logged |
| Extract.Placeholder | getmedu4.py:21-29 | the failure record carries the given category and every other field at its sentinel, with no choices and no images |
| Extract.TextOr | getmedu4.py:33-37 | a missing element gives the sentinel; a present one gives exactly its text stripped, which is no longer than the text, empty exactly when the text is all whitespace, and otherwise without surrounding whitespace |
| Extract.WellFormed | getmedu4.py:41-46 | a choice container survives the `try` exactly when it has a `choice-header` span and at least two spans |
| Extract.ChoiceLine | getmedu4.py:42-44 | the line of a surviving container is its stripped header, a space and its stripped second span |
| Extract.Choices | getmedu4.py:39-46 | there are never more choice lines than containers |
| Extract.HasSource | getmedu4.py:64-65 | an image container counts when it holds an `img` whose `src` is present and non-empty |
| Extract.FullSizeUrl | getmedu4.py:66 | the full-size address is never longer than the `src`, and is empty for a container without a source |
| Extract.ImageUrls | getmedu4.py:60-67 | no address unless images are requested, and then at most one per container |
| Extract.NoSourceNoImages | getmedu4.py:60-67 | a page whose image containers hold no image with a non-empty `src` gives no address |
| Extract.Answer | getmedu4.py:48-52 | fewer than two `h4` headings give the sentinel; otherwise the answer is no longer than the first heading and has no surrounding whitespace |
| Extract.QuestionId | getmedu4.py:48-55 | the question id is the sentinel or a well-formed code, and it is not the sentinel exactly when there are two `h4` headings and the second one contains a code |
| Extract.PageRecord | getmedu4.py:16-89 | a raised fetch gives the full placeholder with category `エラー`; a status other than 200 gives it with `取得失敗`; a page served with 200 has its category, problem and explanation stripped when present and at their sentinels when missing, its choices, answer, question id and images as the extraction rules give them, no more choices and images than containers, and no images when they are not requested; the question id is always the sentinel or a code |
| Extract.ChoicesOrigins | getmedu4.py:39-46 | each choice line is `header + " " + second span`, both stripped, from a container that has both, in page order, and every such container contributes |
| Extract.MalformedChoiceSkipped | getmedu4.py:39-46 | a container missing its header or its second span is skipped without disturbing the other lines |
| Extract.AllChoicesWellFormed | getmedu4.py:39-46 | when every container is well formed, there is exactly one line per container |
| Extract.ImageUrlsOrigins | getmedu4.py:60-67 | with images requested, each address is the non-empty `src` of an image container with every marker removed, in page order, and every such container contributes |
| Extract.AnswerRule | getmedu4.py:48-55 | with fewer than two `h4` headings the answer and the question id keep their sentinels; otherwise the answer is the first heading stripped, and the id is the code found in the second |
| Extract.CollectChoices | getmedu4.py:39-46 | the loop, with its `try`/`continue`, collects exactly the specified choice lines |
| Extract.CollectImageUrls | getmedu4.py:60-67 | the loop collects exactly the specified image addresses, and none when images are not requested |
| Extract.GetPageText | getmedu4.py:16-89 | one page request is made, and the record returned is the specified record for what the server answered |
| WordDoc.Document.constructor | getmedu4.py:93 | a new document has no paragraph |
| WordDoc.Document.AddHeading | getmedu4.py:94 | `add_heading` appends one heading and changes nothing else |
| WordDoc.Document.AddParagraph | getmedu4.py:95 | `add_paragraph` appends one paragraph with the given text and style |
| WordDoc.Document.AddPicture | getmedu4.py:109 | `add_picture` appends the picture when the bytes embed; otherwise it reports the library's error and leaves one empty paragraph |
| WordDoc.ImageErrorNote | getmedu4.py:113 | the note for a raised image request is a Normal paragraph ending with the exception's message |
| WordDoc.ImageParagraphs | getmedu4.py:103-113 | a record's images add one to three paragraphs each, in order |
| WordDoc.ChoiceParagraphs | getmedu4.py:116-117 | the choices add exactly one paragraph each |
| WordDoc.ImageBlock | getmedu4.py:104-113 | one image adds one to three paragraphs; more than one exactly when it was answered with status 200, and then the first is empty; the last is a picture exactly when the image embeds, and then it holds the fetched bytes; neither end is a section heading |
| WordDoc.SectionHead | getmedu4.py:98-100 | a section opens with its one heading, carrying its title, and then a plain, non-picture paragraph |
| WordDoc.SectionImages | getmedu4.py:102 | the images block is empty without images, and otherwise holds one to three paragraphs per image of the record |
| WordDoc.SectionTitle | getmedu4.py:98 | a section title starts with `問題` and ends with a space and the question id |
| WordDoc.SectionTitleNumber | getmedu4.py:98 | the digits between `問題` and the space read back as the section's number |
| WordDoc.SectionTail | getmedu4.py:115-120 | the closing part of a section is `選択肢:`, one paragraph per choice, the answer, `解説: …` and the separator line |
| WordDoc.Section | getmedu4.py:97-120 | a section has at least six paragraphs, opens with its title heading and the problem, and closes with the separator line |
| WordDoc.Sections | getmedu4.py:97-120 | the sections of all records have at least six paragraphs per record |
| WordDoc.Header | getmedu4.py:94-95 | the document opens with the title heading and a Normal count line of the form `取得問題数: …問` |
| WordDoc.HeaderCount | getmedu4.py:95 | the digits of the count line read back as the count |
| WordDoc.DocParagraphs | getmedu4.py:92-120 | the document opens with the header for the number of records and holds at least six more paragraphs per record |
| WordDoc.OneLeadingHeading | getmedu4.py:97-120 | a heading, a plain paragraph, then paragraphs without a heading carry exactly the first one's title |
| WordDoc.PicturesBetweenText | getmedu4.py:97-120 | text paragraphs around an images block contribute no picture |
| WordDoc.ChoiceParagraphsVerbatim | getmedu4.py:116-117 | every choice becomes one Normal paragraph holding exactly its text, in order |
| WordDoc.SectionTailIsNormal | getmedu4.py:115-120 | the choices block, answer, explanation and separator are all Normal text |
| WordDoc.ImageParagraphsPlain | getmedu4.py:102-113 | no paragraph of an images block has the section-heading style |
| WordDoc.ImageRequests | getmedu4.py:102-105 | without images no image address is requested |
| WordDoc.ImageRequestsRule | getmedu4.py:102-105 | without images no image is requested; with images, exactly the records' image addresses are requested, each once, in record order |
| WordDoc.SectionHasOneHeading | getmedu4.py:97-120 | each section holds exactly one section heading, `問題{n} {question_id}` |
| WordDoc.SectionsInOrder | getmedu4.py:92-120 | the document has exactly one section heading per record, and the k-th names the k-th record with number k + 1 |
| WordDoc.SectionTitlesInOrder | getmedu4.py:97-99 | the section headings of the records' sections are numbered from 1 in input order |
| WordDoc.SectionHeadingsOfSections | getmedu4.py:97-120 | the section headings of all sections are the records' titles in order |
| WordDoc.SectionTitlesNumbered | getmedu4.py:97-98 | the k-th title is `問題{k + 1}` followed by the k-th record's id |
| WordDoc.EmbeddedImagesAppend | getmedu4.py:103-109 | the images embedded for consecutive address lists are those of each list in turn |
| WordDoc.ImageBlockPictures | getmedu4.py:104-113 | one image adds a picture exactly when it was answered with status 200 and its bytes embed, and then it adds those bytes |
| WordDoc.ImageParagraphsPictures | getmedu4.py:103-113 | the pictures of an images block are exactly the embedded images of its addresses |
| WordDoc.SectionPictures | getmedu4.py:97-120 | the pictures of a section are those of its images block |
| WordDoc.DocumentPictures | getmedu4.py:92-120 | the document embeds one picture for every requested image that was answered with status 200 and whose bytes embed, in request order, and no other picture |
| WordDoc.SectionsPictures | getmedu4.py:97-120 | the pictures of all sections are the embedded images of all the requests |
| WordDoc.NoImagesIgnoresServer | getmedu4.py:102 | without images, the document does not depend on what the image server would answer |
| WordDoc.SectionsIgnoreServer | getmedu4.py:102 | without images, the sections do not depend on the image server |
| WordDoc.CreateWordDoc | getmedu4.py:92-124 | builds a new document whose paragraphs are the specified layout, requests exactly the specified image addresses in order, and names the file `<query>_search_results.docx` |
| WordDoc.AddSections | getmedu4.py:97-120 | the loop over records appends their sections in order and requests their images in order |
| WordDoc.SectionsStep | getmedu4.py:97 | one more record adds its section after the others |
| WordDoc.SectionsGrow | getmedu4.py:97-120 | appending the next record's section to the sections written so far gives the sections of one more record |
| WordDoc.RequestsGrow | getmedu4.py:102-105 | appending the next record's image requests to those made so far gives the requests of one more record |
| WordDoc.RequestsStep | getmedu4.py:102-103 | one more record adds its image requests after the others |
| WordDoc.AddSection | getmedu4.py:98-120 | one record's section is appended, and its images are requested only when images are included and it has some |
| WordDoc.AddImages | getmedu4.py:103-113 | the loop over a record's images appends each image's block and requests each address once, in order |
| WordDoc.AddImage | getmedu4.py:104-113 | one image: status 200 gives an empty paragraph and the picture (or the library's leftover paragraph and an error note); another status gives the failure note naming the address; a raised request gives the error note |
| WordDoc.AddTail | getmedu4.py:115-120 | appends `選択肢:`, each choice, the answer, `解説: …` and the separator |
| Upload.UploadLines | getmedu4.py:143-150 | no line is read when every encoding fails, and no line read contains a line break |
| Upload.EncodingsOrder | getmedu4.py:134-142 | the seven encodings are tried UTF-8 first, then the Japanese codecs, then UTF-16 with and without a byte-order mark, and none twice |
| Upload.FirstDecoded | getmedu4.py:144-148 | no text is found exactly when every encoding fails |
| Upload.FirstDecodedIsEarliest | getmedu4.py:144-148 | the earliest encoding that decodes wins, whatever the later ones would give |
| Upload.Utf8First | getmedu4.py:144-146 | a file that UTF-8 decodes is read as UTF-8 |
| Upload.TryReadFile | getmedu4.py:133-150 | returns the lines of the first successful decoding; reports failure exactly when every encoding fails, and then returns no line |
| Pipeline.PagesData | getmedu4.py:159-163 | there is one record per address |
| Pipeline.PagesDataStep | getmedu4.py:159-163 | fetching one more address appends its record after those already collected |
| Pipeline.PagesDataAt | getmedu4.py:159-163 | exactly one record per address, in address order, with a placeholder kept where a fetch failed |
| Pipeline.CollectPages | getmedu4.py:159-163 | the driver loop requests each address once, in order, and keeps one record per address |
| Pipeline.ProcessUpload | getmedu4.py:152-168 | one run: failure is reported exactly when no encoding decodes; the addresses come from the lines read; every page is requested, then the images; the document is the layout of the records under `問題番号リスト` |
| Pipeline.BlankUploadGivesEmptyReport | getmedu4.py:152-168 | an upload of blank lines requests nothing and yields only the title and `取得問題数: 0問` |
| Pipeline.OneSectionPerId | getmedu4.py:155-168 | the report has one section per non-blank id, in upload order, the k-th numbered k + 1 and naming the k-th page's record |
| Pipeline.CountLineIsUrlCount | getmedu4.py:95 | the count line states, in decimal, the number of addresses fetched |
| Pipeline.NoImagesNoImageRequests | getmedu4.py:162 | without images nothing but the pages is requested, whatever they hold |
| Pipeline.Report | getmedu4.py:152-168 | the report holds the header and at least six paragraphs per non-blank id |
| Indentation.DedentIff | getmedu4.py:134-143 | a dedent succeeds exactly when its column is on the indentation stack, and cuts the stack just after that column |
| Indentation.StepAcceptsIff | getmedu4.py:134-143 | a logical line is accepted exactly when it indents further or returns to a column on the stack, and the stack stays valid and ends at that column |
| Indentation.PrefixValid | getmedu4.py:134-143 | popping columns keeps the stack valid |
| Indentation.RunLine | getmedu4.py:133-150 | running the lines from k is taking line k's step, then running from line k + 1 |
| Indentation.AsWrittenRejected | getmedu4.py:133-150 | `try_read_file` as written is rejected, at line 143: after columns 0 and 5, column 4 matches no enclosing block |
| Indentation.IntendedAccepted | getmedu4.py:133-150 | with the list at four spaces, every line of `try_read_file` is accepted and the function ends at the body's column |
| Indentation.IntendedBody | getmedu4.py:143-150 | from `raw` on, the intended lines are accepted and return to the body's column |
| Indentation.IntendedLoop | getmedu4.py:145-150 | the loop's `try`/`except` lines and the closing lines are accepted |
| Indentation.IntendedClose | getmedu4.py:149-150 | `st.error` leaves the `try` and the loop, and `return []` stays at the body's column |

## Findings

| source | as written | input that shows it | evidently intended | confidence | as-written member | corrected member |
|---|---|---|---|---|---|---|
| getmedu4.py:134 | the `encodings = [` line is indented by five spaces, while the next statement (line 143) is indented by four, so Python rejects the file with an `IndentationError` before anything runs | the file itself: `try_read_file`'s logical lines start at columns 0, 5, 4, 4, 8, 12, 8, 12, 4, 4 | the list at the body's four spaces, like every other statement of the function | not executed | Indentation.AsWrittenRejected | Indentation.IntendedAccepted |

The rest of the model reads `try_read_file` with the intended indentation:
`Upload.TryReadFile` is the function body as it would run once the file loads.

## Left out

- The Streamlit interface is not modelled: the title, the uploader, the checkbox, the warnings and error messages, the spinner, the success message and the download button. These are display effects. The upload is the parameter `raw` of `ProcessUpload`, and the checkbox is `includeImages`.
- The progress bar and `time.sleep(0.2)` are not modelled. They affect only display and timing.
- The network is not modelled. Pages and images come from the fixed server functions `pageAt` and `imageAt`. A server that answers differently on a second request is therefore outside the model.
- BeautifulSoup parsing is not modelled. A page is the abstract `Page`, holding the pieces the `find`/`find_all` calls locate, each element as its `.text`.
- An exception raised while parsing a page that was served with 200 is folded into `PageRaised`, the same outcome as a failed request. Both give the `エラー` placeholder.
- The codecs are not modelled. `decode(encoding, raw)` is an oracle, and `None` stands for the exception `bytes.decode` raises.
- python-docx internals are not modelled: the `Inches(2.5)` picture width, the document's XML, and `doc.save` writing the file to disk. Whether the library accepts an image's bytes is the oracle `pictureError`.
- CreateWordDoc: does not model the `ValueError` python-docx raises when a paragraph's text holds a character XML 1.0 forbids, such as U+000B or U+000C inside a problem text (`strip()` removes such characters only at the ends). That raise at `getmedu4.py:99-120` lies outside the image `try`, so the run ends with no document; the model promises the `DocParagraphs` layout for every list of records.
- The text of an exception, as `{e}` renders it, is an oracle value: `ImageRaised(message)` or the message from `pictureError`.
- Integers are unbounded, as Python's are, so there is no overflow to model.
