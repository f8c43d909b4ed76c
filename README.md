# The ARC document backend, modelled in Dafny

This project models the decision logic of the document backend of ARC, a school-records
system. A user uploads a scanned form. The backend reads its text with OCR, classifies it into
one of eleven school-document categories, and extracts structured fields from Syllabus Review
Forms. It stores the file and a record of it, and it hands out document numbers. The model keeps
the string and integer rules of that pipeline. The image processing, the OCR library, the
trained model and the database are inputs.

Modules, one file each:

- `common.dfy` (`Common`): `Option` and `Result`.
- `text.dfy` (`Text`): the Python string operations the backend uses. These are lower and upper
  case, `strip`, `split`, `join`, `in` on strings, `rfind`, `int()` on a string and `str()` on
  an integer.
- `ranking.dfy` (`Ranking`): the word-frequency dict both keyword extractors fill. It also has
  the stable sort by descending count that ranks the words, and the facts proved about the
  ranking.
- `classifier.dfy` (`Classifier`): `DocumentClassifier` in `backend/ml_classifier.py`. It covers
  the substring features, the integer scores per category and the syllabus adjustment. It also
  covers the first-maximum decision and its confidence, the short-text guard, the choice between
  the trained model and the rules, and the keyword extractor.
- `fields.dfy` (`Fields`): `FieldExtractor` in `backend/field_extractor.py`. It covers `_norm`,
  `_get_first`, `_split_names`, the capitalisation of names and semester, and the whole-word
  YES/NO counts. It also assembles the Syllabus Review record, including
  `_debug_present_fields`.
- `ocr.dfy` (`Ocr`): the non-image decisions of `OCREngine` in `backend/ocr_engine.py`. These
  are extension routing, the keyword extractor, the crop rectangle, the confidence filter, the
  choice of the best OCR result, the `rotate:` line of the orientation report, and the page and
  length caps.
- `store.dfy` (`Store`): the computations of `SupabaseClient` in `backend/supabase_client.py`.
  These are the storage name of an upload, the object a delete removes, the statistics over the
  fetched rows, and the unpacking of the document-number RPC result.
- `api.dfy` (`Api`): the endpoints of `backend/app.py`. It covers the extension whitelist, the
  refusals and the response of `classify_document`, and the parameter checks and the response of
  `next_document_number`.

Where the source updates state step by step, the model has methods with loops, proved equal to a
specification function:

- the dict-filling loops of both `extract_keywords` (`Ranking.CountKept`);
- the score accumulation of `rule_based_classification`;
- the confidence loop and the candidate search of the OCR engine;
- the page loop of the PDF reader;
- the aggregation loop of `get_statistics`.

The two classes of the source that hold fields are classes here: `DocumentClassifier` (model and
threshold) and `OCREngine` (language). Everything else is functions and lemmas about them.

## Model

| member | source | states |
|---|---|---|
| Classifier.Position | backend/ml_classifier.py:19-31 | each category has a position in `CATEGORIES` that holds exactly it |
| Classifier.CategoriesDistinct | backend/ml_classifier.py:19-31 | `CATEGORIES` lists every category exactly once |
| Classifier.CuesNeedFeatures | backend/ml_classifier.py:93-101 | the exam feature holds iff "exam", "test" or "quiz" occurs in the lowercased text; the second cue of the exam, acknowledgement, receipt, enrollment, certificate and leave rules only holds when that category's keyword feature does |
| Classifier.SyllabusSignalsRange | backend/ml_classifier.py:186-209 | the syllabus signals lie in 0..18 and are positive iff one of the nine produced syllabus features is set; `has_reviewed_by` and `has_plan_of_action` never contribute |
| Classifier.BaseScore | backend/ml_classifier.py:132-184 | a rule-based score is never negative, and the Syllabus Review Form and Other get nothing from the keyword rules |
| Classifier.BaseScoresAt | backend/ml_classifier.py:130-184 | the score dict after the keyword rules holds each category's base score at that category's position |
| Classifier.ScoresSpec | backend/ml_classifier.py:130-215 | final scores are non-negative; Other scores 0; the Syllabus Review Form scores exactly the signals; the Grade Sheet loses 3, floored at 0, only when the signals are positive; every other score is its base score |
| Classifier.FirstMax | backend/ml_classifier.py:218-223 | `max(scores, key=scores.get)` returns the first position whose value is at least every value and greater than every value before it |
| Classifier.Decide | backend/ml_classifier.py:218-224 | ("Other", 0.5) when the top score is 0; otherwise the earliest category with the top score, and confidence `min(top/10, 1)` |
| Classifier.RuleBasedSpec | backend/ml_classifier.py:218-224 | the verdict is ("Other", 0.5) iff every score is 0; otherwise it is a category other than Other with the highest, positive score, it precedes every tied category, and its confidence is in (0, 1] |
| Classifier.DocumentClassifier.ApplyRules | backend/ml_classifier.py:130-184 | the rule loop accumulates exactly the base scores, in `CATEGORIES` order |
| Classifier.DocumentClassifier.ApplySyllabusSignals | backend/ml_classifier.py:186-215 | the signal sum and the adjustment give exactly `Adjusted(base, signals)` |
| Classifier.DocumentClassifier.RuleBasedClassification | backend/ml_classifier.py:121-226 | the step-by-step scoring returns the rule-based verdict that `RuleBasedSpec` characterises |
| Classifier.LetterWords | backend/ml_classifier.py:285 | every word found has at least four ASCII letters and nothing else |
| Classifier.KeywordsAreCountedWords | backend/ml_classifier.py:285-297 | every classifier keyword is a letter word of the lowercased text with at least four letters, and not a stop word |
| Classifier.KeywordsRanked | backend/ml_classifier.py:294-301 | exactly `min(top_n, number of distinct words)` keywords, each a counted word, distinct, in non-increasing frequency; no word left out is more frequent than the last kept one; two keywords of equal count appear in the order of their first occurrence in the text |
| Classifier.DocumentClassifier.ExtractKeywords | backend/ml_classifier.py:282-301 | the dict loop, the stable sort and the slice return the keywords that `KeywordsRanked` characterises |
| Classifier.MaxProbability | backend/ml_classifier.py:254 | `max(probabilities)` is one of them and at least all of them; it is absent (Python raises) exactly for an empty row |
| Classifier.ClassifyFrom | backend/ml_classifier.py:238-280 | ("Other", 0.0, [], insufficient_text) iff the stripped text is shorter than 10; rule_based iff there is no model; rule_based_fallback iff the model's top probability is below the threshold; rule_based_error_fallback iff the model raises; ml_model keeps the model's label and a confidence at least the threshold |
| Classifier.DocumentClassifier.constructor | backend/ml_classifier.py:33-54 | the model is the loaded pipeline, and is None when the file is missing or loading fails; the threshold is the configured one |
| Classifier.DocumentClassifier.Classify | backend/ml_classifier.py:228-280 | `classify` returns the result that `ClassifyFrom` characterises, with the five top keywords |
| Classifier.DocumentClassifier.Predict | backend/ml_classifier.py:246-270 | the model-or-rules branch gives the label, confidence and method of `Label` |
| Fields.UnifyDashes | backend/field_extractor.py:20 | the result has the input's length; each em or en dash becomes '-' and every other character is kept |
| Fields.CollapseSpace | backend/field_extractor.py:22 | the result is no longer than the input, empty iff the input is, starts with white space iff the input does, and its white space is single spaces, never two in a row |
| Fields.CollapseNoDash | backend/field_extractor.py:22 | collapsing white space brings in no dash |
| Fields.CollapseVisible | backend/field_extractor.py:22 | collapsing keeps every non-space character, in order |
| Fields.StripVisible | backend/field_extractor.py:23 | `strip` removes white space only |
| Fields.CollapseSingleSpaces | backend/field_extractor.py:22 | a text whose white space is already single spaces is its own collapse |
| Fields.NormShape | backend/field_extractor.py:14-23 | `_norm` of a missing or empty text is ""; its output has no em or en dash, no white space at either end, and no two white-space characters in a row |
| Fields.NormVisible | backend/field_extractor.py:18-23 | `_norm` changes nothing but dashes and white space |
| Fields.NormIdempotent | backend/field_extractor.py:14-23 | `_norm(_norm(t)) == _norm(t)` |
| Fields.GetFirst | backend/field_extractor.py:26-33 | None iff there is no match; otherwise the last group (or the whole match) with only its surrounding white space removed |
| Fields.SplitAtSeparators | backend/field_extractor.py:38 | `re.split(r"[,;]\s*")` yields pieces with no ',' or ';' |
| Fields.NamesOfAreNames | backend/field_extractor.py:38-40 | every name has length ≥ 2, no ',' or ';', and no space, comma, semicolon, newline or tab at either end |
| Fields.NamesOfComplete | backend/field_extractor.py:38-40 | every non-blank piece that trims to two or more characters is kept |
| Fields.SplitNamesSpec | backend/field_extractor.py:36-40 | `_split_names` returns only names, and every qualifying piece of the blob among them |
| Fields.Capitalize | backend/field_extractor.py:101 | `capitalize` keeps the length |
| Fields.CapitalizeSpec | backend/field_extractor.py:101 | a capitalised word has an upper-case letter only at its first character, spaces where the word has them, and the same lower-case form |
| Fields.SplitSpaceRuns | backend/field_extractor.py:101 | `re.split(r"\s+")` yields at least one piece, none holding white space |
| Fields.CapitalizeWordsShape | backend/field_extractor.py:101 | a name capitalised word by word has an upper-case letter exactly at the start of each word |
| Fields.Title | backend/field_extractor.py:95 | `title()` keeps the length and the lower-case form |
| Fields.TitleShape | backend/field_extractor.py:95 | after `title()` the text is title-cased: a letter is upper-case exactly when the character before it is not a letter |
| Fields.TitleOfOrdinal | backend/field_extractor.py:115 | `"1st semester".title()` upper-cases the `s` after the digit, so it is not capitalised word by word |
| Fields.RemoveSpaces | backend/field_extractor.py:71-72 | the cleaned course code holds no space |
| Fields.WholeWordCountSpec | backend/field_extractor.py:109-110 | `len(re.findall(r"\bw\b"))` is the number of whole-word occurrences of w |
| Fields.WordMatchesDistinct | backend/field_extractor.py:109-110 | no whole-word match is reported twice |
| Fields.PresentKeys | backend/field_extractor.py:124-135 | a key is listed iff some entry carries it with a truthy value, and the keys keep their order |
| Fields.PresentFieldsSpec | backend/field_extractor.py:124-135 | `_debug_present_fields` lists exactly the field names whose values are truthy, in dictionary order |
| Fields.FieldNamesDistinct | backend/field_extractor.py:124-135 | the eight field names differ |
| Fields.AssembleSpec | backend/field_extractor.py:108-123 | the record has a semester iff one was found, the found text title-cased as `title()` does it (same lower-case form, a letter upper-case exactly when no letter precedes it); yes_count and no_count are the numbers of whole-word "yes"/"no" in the lower-cased text |
| Fields.AssembleIntendedSpec | backend/field_extractor.py:108-123 | the intended record differs from the as-written one in the semester only, which is present iff one was found and then capitalised word by word |
| Fields.AssembleOrdinalSemester | backend/field_extractor.py:115 | with the semester "1st semester" the as-written record holds "1St Semester", not capitalised word by word, while the intended record's semester is |
| Fields.AssemblePresent | backend/field_extractor.py:112-135 | the record's `_debug_present_fields` names exactly its truthy fields, in order |
| Fields.SyllabusReviewSpec | backend/field_extractor.py:43-136 | any course code has no space; faculty names are capitalised word by word; the semester is the found one title-cased as `title()` does it; plus the YES/NO counts and `_debug_present_fields` as above |
| Fields.NamesCapitalized | backend/field_extractor.py:101 | each faculty name is replaced by its word-by-word capitalisation |
| Ocr.ExtensionSpec | backend/ocr_engine.py:325 | `splitext` gives "" or a final segment of the path that begins with its only dot, holds no '/', and has something other than dots before it |
| Ocr.RouteOf | backend/ocr_engine.py:321-336 | an unsupported file is refused with its lower-cased extension |
| Ocr.RouteSpec | backend/ocr_engine.py:325-336 | the PDF path only takes names ending in ".pdf" in any case; the image path only takes names ending in an image extension; the type is refused iff the lower-cased extension is neither |
| Ocr.ExtractText | backend/ocr_engine.py:316-336 | text iff routed to the PDF or image reader; FileNotFoundError iff the file is missing |
| Ocr.KeywordsAreCountedWords | backend/ocr_engine.py:350-352 | every OCR keyword is a lower-cased token of the text, with no white space, longer than three characters, and not a stop word |
| Ocr.KeywordsRanked | backend/ocr_engine.py:354-361 | exactly `min(top_n, number of distinct words)` keywords, each a counted word, distinct, in non-increasing frequency; none left out is more frequent than the last kept one; two keywords of equal count appear in the order of their first occurrence |
| Ocr.OcrEngine.ExtractKeywords | backend/ocr_engine.py:338-361 | the dict loop and stable sort return the keywords that `KeywordsRanked` characterises |
| Ocr.Pad | backend/ocr_engine.py:115-116 | the padding is at least 4 and at least 2% of the extent |
| Ocr.PaddedBox | backend/ocr_engine.py:115-120 | the padded box stays inside the image, contains the content box, and has a margin of at least 4 on each side unless it meets the image edge |
| Ocr.Crop | backend/ocr_engine.py:121 | the slice has the rectangle's size and each pixel at its offset |
| Ocr.CropToContent | backend/ocr_engine.py:107-123 | no content or an error returns the image unchanged; otherwise the crop is no larger than the image and keeps every pixel of the content box |
| Ocr.Truncate | backend/ocr_engine.py:89 | `int()` on a float rounds toward zero |
| Ocr.KeptConfs | backend/ocr_engine.py:86-93 | the kept confidences are non-negative and no more numerous than the raw ones |
| Ocr.KeptConfsSpec | backend/ocr_engine.py:87-93 | exactly the entries that convert to a non-negative integer are kept, as those integers |
| Ocr.OcrEngine.FilterConfs | backend/ocr_engine.py:85-93 | the confidence loop keeps exactly `KeptConfs` |
| Ocr.DataWords | backend/ocr_engine.py:84 | every word kept is non-blank |
| Ocr.TextAndConfSpec | backend/ocr_engine.py:75-105 | the text is stripped: the joined words when they are not blank, else the stripped plain text, else empty; the confidence is the median of the kept confidences when there are some, the data call succeeded and some text was obtained, and 0.0 otherwise (also when the words are blank and `image_to_string` fails) |
| Ocr.OcrEngine.OcrTextAndConf | backend/ocr_engine.py:75-105 | the method returns `TextAndConf`, as `TextAndConfSpec` characterises it |
| Ocr.BestOfSpec | backend/ocr_engine.py:215-222 | no result beats the kept one: its confidence is highest, its text is longest among equal confidences, and it is the first on a full tie |
| Ocr.OcrEngine.SelectBest | backend/ocr_engine.py:215-222 | the nested candidate-by-configuration loop keeps `BestOf` of all results in order |
| Ocr.FirstRotateLine | backend/ocr_engine.py:152-158 | the first line starting with "rotate:" in any case; None iff there is none |
| Ocr.RotateValueShow | backend/ocr_engine.py:155 | a line `head:n` with n in decimal parses to n |
| Ocr.TurnFor | backend/ocr_engine.py:150-167 | the image is turned iff the report was read and its rotation is 90, 180 or 270 |
| Ocr.EnvInt | backend/ocr_engine.py:269-273 | the default when the value is unset, empty or not an integer; otherwise its integer value |
| Ocr.Cap | backend/ocr_engine.py:252-253 | the text is cut to a prefix of at most `max_chars` characters, and kept whole when short enough |
| Ocr.PageCount | backend/ocr_engine.py:275 | at most max(1, max_pages) pages are read, and at least one when there is one |
| Ocr.NonEmpty | backend/ocr_engine.py:244 | exactly the non-empty pieces are kept |
| Ocr.OcrEngine.constructor | backend/ocr_engine.py:33 | the language is `OCR_LANGUAGE`, or "eng" |
| Ocr.OcrEngine.ExtractTextFromPdf | backend/ocr_engine.py:260-314 | the page loop reads the first `PageCount` pages, joins, strips and caps them; "" when the conversion fails |
| Store.Digits | backend/supabase_client.py:78 | a zero-padded field has its width and only digits |
| Store.DigitsRoundTrip | backend/supabase_client.py:78 | reading a zero-padded field back gives its number |
| Store.Stamp | backend/supabase_client.py:78 | the timestamp `%Y%m%d_%H%M%S` has 15 characters with '_' at index 8 |
| Store.UniqueName | backend/supabase_client.py:79 | the stored name is 16 characters longer than the filename, with '_' after the stamp |
| Store.UniqueNameInjective | backend/supabase_client.py:78-79 | different moments or filenames give different stored names |
| Store.UploadObject | backend/supabase_client.py:69-79 | the stored name is the stamp, '_', then the filename; the MIME type is the guessed one, or application/octet-stream |
| Store.LastSegment | backend/supabase_client.py:220 | `url.split('/')[-1]` is a '/'-free suffix of the URL, preceded by '/' when shorter than it |
| Store.LastSegmentOfJoin | backend/supabase_client.py:220 | the last segment of `base + "/" + name` is `name` when name has no '/' |
| Store.DeleteDocument | backend/supabase_client.py:201-233 | False when the document is not found; True iff found and the record deleted; a storage object is removed iff the URL is truthy, and its name holds no '/' |
| Store.DeleteRemovesUploadedObject | backend/supabase_client.py:78-79 | the delete removes exactly the object the upload stored under that URL |
| Store.GetStatisticsOf | backend/supabase_client.py:245-287 | the zero record iff the query fails, there are no rows, or a confidence is null (the sum raises); otherwise the total is the row count and by_category is the tally of the categories |
| Store.CountsSumToTotal | backend/supabase_client.py:265-276 | the by_category counts sum to total_documents |
| Store.ByCategorySpec | backend/supabase_client.py:268-270 | categories are listed once each; every row's category is listed with its number of rows; a row without document_type counts under "Unknown" |
| Store.AverageBounded | backend/supabase_client.py:271-273 | with confidences in [0, 1], the average is in [0, 1] |
| Store.ConfidenceSumBounded | backend/supabase_client.py:271 | the confidence sum is at most the row count |
| Store.GetStatistics | backend/supabase_client.py:235-287 | the aggregation loop returns `GetStatisticsOf` |
| Store.UnpackRpc | backend/supabase_client.py:310-317 | a string is returned as itself; a non-empty list yields the first value of its first row; anything else is the "Unexpected RPC response format" error |
| Store.NextDocumentNumber | backend/supabase_client.py:300-320 | an RPC failure is re-raised unchanged; otherwise the result is unpacked |
| Api.AllowedFileSpec | backend/app.py:55-57 | `allowed_file` is false without a '.', and otherwise true iff the lower-cased suffix after the last '.' is in {pdf, png, jpg, jpeg, tiff, bmp} |
| Api.AllowedFileRouted | backend/app.py:32 | a filename that `allowed_file` accepts, without a leading dot or a '/', has an extension that `extract_text` routes to its PDF or image reader |
| Api.ValidateClassify | backend/app.py:100-112 | refused for no 'file' part, then an empty filename, then a disallowed type, each iff its condition; user_id defaults to "anonymous" |
| Api.FieldsFor | backend/app.py:147-150 | fields are extracted iff the type is "Syllabus Review Form" |
| Api.RecordFor | backend/app.py:160-168 | the record holds the user, file, type, confidence, URL and status "classified", and the first 500 characters of the text |
| Api.Process | backend/app.py:142-198 | a 200 response iff the upload and the save succeed, otherwise 500 "Internal server error"; the record belongs to the user, names the secured filename, holds the response's type and URL and at most the first 500 characters of the text (exactly 500 when the text is longer), has status "classified", and fields come back iff the type is "Syllabus Review Form" |
| Api.ClassifyDocument | backend/app.py:93-198 | 400 with the refusal's message iff validation refuses; 500 "OCR processing failed" iff OCR raises; otherwise the processing response |
| Api.AllocationArgs | backend/app.py:251-264 | "prefix and department are required" iff one is missing or empty; "year must be an integer" iff a given year does not parse; otherwise the upper-cased prefix and department, and the parsed year or the current year |
| Api.AllocationYearRoundTrip | backend/app.py:258-264 | a year written in decimal is read back; the prefix and department passed on have no lower-case letter |
| Api.NextDocumentNumber | backend/app.py:243-267 | 400 with the refusal's message iff the parameters are refused; a number iff the RPC result for the upper-cased parameters unpacks, and then it is that unpacked value |
| Ranking.CountKept | backend/ml_classifier.py:294-297 | the dict loop keys the distinct kept words in first-occurrence order, each with its count |
| Ranking.RankedDescending | backend/ml_classifier.py:300-301 | ranked words are in non-increasing count |
| Ranking.RankedStable | backend/ocr_engine.py:360-361 | the sort is stable: words of equal count keep their dict order |
| Ranking.RankedTop | backend/ocr_engine.py:360-361 | no word left out has a higher count than the last one kept |
| Ranking.RankedSpec | backend/ml_classifier.py:298-301 | the keywords are exactly `min(top_n, number of distinct words)` distinct words of the list in non-increasing count, none left out counted more often than the last kept, keywords of equal count in first-occurrence order |
| Ranking.RankedTies | backend/ocr_engine.py:360-361 | two ranked words of equal count are in the order of their first occurrence in the word list, as the stable sort of the insertion-ordered dict leaves them |
| Ranking.TopItemsOfCounts | backend/ocr_engine.py:354-361 | sorting the items of the counted dict and slicing gives the top items of the word list |

## Left out

- OpenCV, Tesseract and pdf2image are not modelled. These are the grey-scale conversion, thresholding, denoising, morphology, resizing, CLAHE, `_remove_lines`, `preprocess_image`, `image_to_data`, `image_to_string`, `image_to_osd` and `convert_from_path`. They are foreign libraries with floating-point image processing, so their outputs are parameters: the OCR data, the orientation report, the bounding box, the page texts and the candidate results.
- `Ocr.ImageText`: the joining of header, best and body texts in `extract_text_from_image` is a function of the three texts. The header and body regions and their OCR calls are left out with the image processing.
- `np.median` is a parameter (`median`) of `Ocr.TextAndConf`, because it works on floats.
- Rounding of the confidence (backend/ml_classifier.py:277) and of the average (backend/supabase_client.py:278) to two decimals is not modelled. These values are `real`.
- `Ocr.Pad`: `int(0.02 * W)` is modelled as `W / 50`. The two agree except where floating point rounds `0.02 * W` below an integer.
- Letter case, `capitalize` and `title` are modelled on ASCII letters only. Other characters are left as they are. `\b` treats non-ASCII characters as non-word characters.
- The regular expressions of the field extractor are not modelled. These are the labelled and bare course code, the two semester patterns, descriptive title, faculty list, reviewed by and review date. They are the search function of `Fields.Oracles`. The document-code canonicalisation (backend/field_extractor.py:51-58) and the academic-year assembly (80-90) are oracle functions too.
- The four regular-expression features of the classifier are the `Classifier.Searches` parameter. These are the fuzzy title and FM-USTP-ACAD-12 (backend/ml_classifier.py:106-107) and amount and date (114-115).
- The trained scikit-learn pipeline is an abstract function from a text to a prediction or an exception. Training, `predict_proba` internals and joblib saving are left out.
- `Classifier.DocumentClassifier.constructor`: reading `MODEL_PATH` and `CONFIDENCE_THRESHOLD` from the environment, and the file-existence check, are parameters.
- Environment variables (`OCR_LANGUAGE`, `OCR_MAX_CHARS`, `OCR_MAX_PAGES`) are parameters of type `Option<string>`.
- `Ocr.Extension` models `os.path.splitext` for POSIX paths ('/' separator).
- `Ocr.Lines` splits at every `splitlines` boundary character. It therefore differs from `splitlines` by empty lines only, which never start with `rotate:`.
- Supabase database and storage calls are inputs and outputs of the model. These cover the insert, select, update, delete, RPC and bucket calls. The fetched rows, the document looked up, the upload URL, the saved record and the RPC response are parameters.
- Flask routing, CORS, request parsing, `secure_filename` (a parameter function of `Api.Services`), the temporary file save and removal, and `print` logging are left out.
- `Store.Stamp`: years below 1000 are excluded (`ValidMoment`), since `strftime('%Y')` pads differently across platforms. The clock is a parameter.
- `Store.UploadObject`: `mimetypes.guess_type` is a parameter.
- `Api.Process`: any exception other than a failed upload or save, for example from the classifier or the field extractor, is not modelled. The field-extraction error swallowed at backend/app.py:151-152 cannot arise in the model.
- The other endpoints and client methods are plain pass-through I/O. These are the document lists, search, update, statistics routes and health check in `app.py`, and `save_document_record`, `get_user_documents`, `get_document_by_id`, `update_document`, `search_documents` and the bucket setup.
- Document-number allocation itself is a database function outside this repository. The model only forwards its result (`Store.NextDocumentNumber`).
- `Api.AllowedFileRouted` is about the uploaded name. The handler routes `secure_filename` of that name (backend/app.py:114-122), a parameter here. `secure_filename` can drop the stem, for example of "文.pdf", leaving "pdf" without an extension, which `extract_text` refuses with a `ValueError` and the handler answers with 500.
- `Text.ParseInt` accepts ASCII digits only. Python's `int()` also accepts other Unicode decimal digits, such as full-width "２０２４", for which `Api.AllocationArgs` answers 400 where the backend would parse the year.
- `Store.RpcData` models a list response as rows that are lists of string pairs. A list of non-dicts (whose `AttributeError` is re-raised at backend/supabase_client.py:318-320) and rows with non-string values are not modelled.
- The record returned by `extract_syllabus_review` is modelled as written (`Fields.Assemble`, with `title()`). The evidently intended semester is `Fields.AssembleIntended`, which the rest of the model does not use.
- Approval workflow, version history, audit log and role checks are described for the wider system but are not implemented in the backend code. They are not modelled.

## Findings

| source | as written | input that shows it | evidently intended | confidence | as-written member | corrected member |
|---|---|---|---|---|---|---|
| backend/field_extractor.py:115 | `semester.title()` upper-cases every letter that follows a non-letter, including a digit | "1st semester" becomes "1St Semester" | each word capitalised, "1st Semester", as the faculty names are at line 101 | not executed | Fields.AssembleOrdinalSemester | Fields.AssembleIntendedSpec |
