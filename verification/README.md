# polybiblioglot: document-to-text-to-translation core, in Dafny

polybiblioglot lets a user pick a scanned image or PDF and read its text by
OCR. The text can then be translated with a free-tier translation library or
the IBM Watson translation API. This project models the logic that sits
around those foreign calls and proves properties of it:

- **Translation dispatch** (`translator.py`, module `Translator`). The
  `MultiTranslator` constructor and `set_api` store only recognised types.
  `translate` falls back to the stored type when the method name is empty
  and rejects unknown methods. The free tier gets `text[:499]`. On the IBM
  path the token is checked first, the request is built with model id
  `"{source}-{destination}"`, a status other than 200 becomes
  `ApiError(body)`, and on success the segments are joined, each followed by
  `'\n'`. `Prepare` is the pure decision of what to send, if anything.
  `Translate` sends it through the `Providers` parameter, which stands for
  the free-tier library and the HTTP POST.
- **File-to-pages extraction** (`converter.py`, module `Converter`). The path
  is classified by its lower-cased suffix. A `None` path gives `[]` and an
  unsupported one gives `None`. An image gives one text. A PDF gives one text
  per rasterised page, in page order. OCR, image decoding and rasterisation
  are the fields of `Engines`.
- **Convert pane** (`polybiblioglot/polybiblioglot.py`, modules `Gating` and
  `Session`). `update_convert_pane` creates a pane whose four buttons start
  as convert-only. The `convert_file` and `translate_text` callbacks apply
  their payloads' `disable`/`enable` lists. The page text is assembled last
  page first. An `ApiError` is degraded into the stored translation. `Run`
  replays a sequence of clicks; a click on a disabled button runs no callback
  in Dear PyGui, so `Apply` ignores it. The gating alone is a machine of
  four booleans driven by abstract clicks (`Gating.Click`): a convert click
  and whether pages came back, or a translate click and whether it raised.
  `Session.RunButtons` shows that the pane's buttons follow that machine.
  The trace lemmas say exactly when each button is enabled. `_get_uid`
  hands out consecutive ids.

Python `str` indexing counts code points, and so does Dafny's `char`, so
`text[:499]` is modelled as a prefix of 499 characters.

The model follows the code in these details:
- a `None` path returns `[]`;
- an unsupported suffix returns `None`, not an exception;
- the pages are shown in reverse order;
- convert is disabled on the first click and never re-enabled, even when
  conversion produced nothing;
- a pane has no reset and no way to select another file.
A translate click that raises (a missing language name, an invalid method)
likewise leaves translate disabled for good.

## Model

| member | source | states |
|---|---|---|
| Translator.New | translator.py:33-39 | the constructor stores the type exactly when it is `'translator'` or `'ibm'`, and otherwise leaves it unset |
| Translator.SetApi | translator.py:41-45 | a recognised type replaces the stored one; an invalid type leaves the translator unchanged; only recognised types are ever stored |
| Translator.Truncate | translator.py:68-71 | the free-tier text is a prefix of the input of length min(\|text\|, 499), and inputs of at most 499 characters pass unchanged |
| Translator.Prepare | translator.py:60-88 | an empty method means the stored type (`AttributeError` when none was stored); an unrecognised method raises `InvalidTranslationMethod`; the free tier gets the truncated text; IBM raises `AuthenticationError` exactly when there is no `token` key, and otherwise sends a `POST` with header `Content-Type: application/json` carrying the full text as a single list element with model id `source-destination` and basic auth `apikey`/token; no `ApiError` arises before sending |
| Translator.Translate | translator.py:47-96 | a refusal by `Prepare` is the outcome, and the free-tier path returns what the backend returns for the truncated text |
| Translator.Deliver | translator.py:70-96 | the free tier's answer is the translation; an IBM reply fails with `ApiError(body)` exactly when its status is not 200, and otherwise gives its segments each followed by `'\n'`, of length their total plus their count |
| Translator.JoinTranslations | translator.py:92-96 | the output loop appends each segment and then `'\n'`, giving the joined segments, whose length is the segment lengths plus the segment count |
| Translator.SegmentsRecoverable | translator.py:92-94 | splitting the IBM output at line breaks gives back the segments when none contains a line break |
| Translator.DefaultMethod | translator.py:60-62 | translating with an empty method name is the same as translating with the stored type |
| Translator.RefusalContactsNoProvider | translator.py:64-77 | when `translate` raises before sending, its outcome does not depend on the backends: no backend is contacted |
| Translator.ApiErrorOnlyFromIbmStatus | translator.py:87-90 | `ApiError(m)` results exactly when an IBM request was sent and answered with a status other than 200 and body `m` |
| Translator.IbmSuccessOutput | translator.py:89-96 | on status 200 the output is the segments each followed by `'\n'`; its length is their total length plus their count; no segments give `''` |
| Converter.ConvertImage | converter.py:27-32 | image data takes precedence over the path; with no data an empty or absent path gives `""`; otherwise the image opened from the path is read |
| Converter.ImageFileAsOneImage | converter.py:27-32 | an image file is never the empty path; reading it by path gives the same text as reading its decoded image; and `convert_file` turns it into the one-image list `OcrAll([image])`, the same OCR that is applied to each page of a PDF |
| Converter.ConvertImages | converter.py:43-47 | the result has one text per image and element i is the OCR of image i |
| Converter.ConvertPdf | converter.py:59-61 | one text per page rasterised as JPEG, element i being the OCR of page i |
| Converter.Pages | converter.py:72-80 | a `None` path gives `[]`; the result is `None` exactly for a path with an unsupported suffix; an image gives a one-element list; a PDF gives its pages' texts in page order |
| Converter.ConvertFile | converter.py:63-80 | the step-by-step `convert_file` returns exactly `Pages` |
| Converter.ClassifyBySuffix | converter.py:75-80 | `Classify` takes the PDF branch exactly when the lower-cased path ends with `.pdf`, and the image branch exactly when it does not but ends with `.png`, `.jpg` or `.jpeg` |
| Converter.ClassifyIgnoresCase | converter.py:75-77 | a path and any re-casing of it are handled by the same branch |
| Converter.ClassifyUpperPdf | converter.py:75-76 | `Report.PDF` is handled as a PDF |
| Converter.ClassifyUpperJpeg | converter.py:77-78 | `scan.JPEG` is handled as an image |
| Converter.ClassifyEmpty | converter.py:79-80 | the empty path is unsupported |
| Converter.ClassifyText | converter.py:79-80 | `notes.txt` is unsupported |
| Gating.Configure | polybiblioglot/polybiblioglot.py:465-483 | every widget in the list gets the requested state and every other widget keeps its own |
| Gating.Step | polybiblioglot/polybiblioglot.py:404-449 | one click on the pane's buttons: convert, once disabled, is never re-enabled; save-text and save-translation, once enabled, stay enabled; a convert click leaves save-translation alone and a translate click leaves convert and save-text alone |
| Session.AssembleText | polybiblioglot/polybiblioglot.py:419-421 | the loop yields the pages in reverse order, each followed by `" - - - - - \n"`, of length the page lengths plus 12 per page |
| Session.AssembledTextOrder | polybiblioglot/polybiblioglot.py:420-421 | the k-th page shown from the top is page \|pages\| - 1 - k of the document |
| Session.NewPane | polybiblioglot/polybiblioglot.py:313-362 | a new pane has convert enabled, the other three buttons disabled, and both text values empty |
| Session.OnConvert | polybiblioglot/polybiblioglot.py:404-423 | convert is always disabled; an empty or `None` result changes nothing else; otherwise the text is set to the assembled pages and translate and save-text are enabled |
| Session.OnTranslate | polybiblioglot/polybiblioglot.py:425-449 | the callback raises exactly for a missing language name or an unrecognised method, leaving translate disabled and nothing else changed; otherwise translate and save-translation are enabled and the translation, or the `ApiError` message, is stored |
| Gating.StepFollowsPayloads | polybiblioglot/polybiblioglot.py:339-350 | on an enabled button, `Gating.Step` is the payload's disable list followed, when the converter returned pages or the translate callback raised nothing, by its enable list |
| Gating.ReplayConsistent | polybiblioglot/polybiblioglot.py:339-362 | after any clicks, translate or save-translation enabled implies save-text enabled, which implies convert disabled |
| Gating.ConvertIff | polybiblioglot/polybiblioglot.py:339-342 | convert is enabled exactly while there has been no convert click |
| Gating.SaveTextIff | polybiblioglot/polybiblioglot.py:413-423 | save-text is enabled exactly when the first convert click returned pages |
| Gating.TranslateOnlyAfter | polybiblioglot/polybiblioglot.py:349-353 | translate is enabled only after a successful first conversion with no raising translate click since |
| Gating.TranslateAfter | polybiblioglot/polybiblioglot.py:435-449 | after a successful first conversion translate stays enabled until a translate click raises |
| Gating.SaveTranslationOnlyAfter | polybiblioglot/polybiblioglot.py:350-362 | save-translation is enabled only after a non-raising translate click that followed a successful first conversion |
| Gating.SaveTranslationAfter | polybiblioglot/polybiblioglot.py:444-449 | such a translate click enables save-translation for good |
| Session.StepButtons | polybiblioglot/polybiblioglot.py:404-449 | a click changes the buttons as the gating step for whether the converter returned pages or the translate callback raised, and never changes which file the pane belongs to |
| Session.StepText | polybiblioglot/polybiblioglot.py:414-422 | only a convert click on an enabled button changes the text, to the assembly of the pages it got |
| Session.RunButtons | polybiblioglot/polybiblioglot.py:404-449 | after any clicks the pane keeps its uid and file, and its buttons are those the gating machine reaches on the clicks' outcomes |
| Session.ConsistentReachable | polybiblioglot/polybiblioglot.py:339-362 | in every reachable pane, translate or save-translation enabled implies save-text enabled, which implies convert disabled |
| Session.ConvertEnabledIff | polybiblioglot/polybiblioglot.py:339-350 | convert is enabled exactly while no convert click has happened: it is never re-enabled |
| Session.SaveTextEnabledIff | polybiblioglot/polybiblioglot.py:413-423 | save-text is enabled exactly when the first convert click returned at least one page |
| Session.TextOfFirstConversion | polybiblioglot/polybiblioglot.py:414-422 | the pane's text is the assembly of the pages of the first, successful, conversion, whatever clicks follow |
| Session.TranslateEnabledIff | polybiblioglot/polybiblioglot.py:435-449 | translate is enabled exactly when the first convert click returned pages and no translate click since has raised |
| Session.SaveTranslationEnabledIff | polybiblioglot/polybiblioglot.py:340-362 | save-translation is enabled exactly when a non-raising translate click followed a successful first conversion with no raising one between: a translation can only follow a conversion |
| Session.NoAuthenticationErrorFromPane | polybiblioglot/polybiblioglot.py:440-443 | the callback always passes a `token` key, even an empty one, so `AuthenticationError` never arises from it |
| Session.GetUid | polybiblioglot/polybiblioglot.py:161-169 | returns the counter's current value and advances the counter by one, leaving the centre panel alone |
| Session.UpdateConvertPane | polybiblioglot/polybiblioglot.py:291-314 | the centre panel becomes a new pane for the selected file under the counter's old value, with convert as its only enabled button and both texts empty; the counter advances by one |
| Session.PaneUidsConsecutive | polybiblioglot/polybiblioglot.py:161-169 | successive panes get consecutive uids starting at the counter's value, which advances by one per pane |
| Session.PaneUidsDistinct | polybiblioglot/polybiblioglot.py:291-293 | from start-up the panes get uids 0, 1, 2, … so no two share one |
| Session.ReportPages | converter.py:59-61 | a two-page PDF whose pages read "Hello" and "World" converts to `["Hello", "World"]` |
| Session.ReportText | polybiblioglot/polybiblioglot.py:419-421 | those pages are shown as "World" then "Hello", each with the separator |
| Session.ReportScenario | polybiblioglot/polybiblioglot.py:404-423 | converting that report sets the reversed text and leaves translate and save-text as the only enabled buttons |
| Session.QuotaExceededScenario | polybiblioglot/polybiblioglot.py:440-449 | an IBM reply with status 500 and body "quota exceeded" is stored as the translation and enables save-translation, with an empty token too |

## Left out

- Foreign calls: pytesseract, PIL, pdf2image, the `translate` library and `requests` are the fields of `Engines` and `Providers`. Their internals and their exceptions are not modelled. This covers unreadable files, connection failures, and a 200 reply whose JSON lacks `translations`.
- `Translator.Translate`: the IBM reply is given already parsed into its `translation` strings, so JSON decoding is not modelled.
- `Translator.Prepare`: `authentication` is `None` or a string-keyed map. Other Python values, which would also make `authentication['token']` raise, are not represented.
- Converter.ClassifyIgnoresCase: the model lower-cases ASCII letters only. No other character lower-cases to a letter of `.pdf`, `.png`, `.jpg` or `.jpeg`, so the suffix tests agree with `str.lower()`.
- `Converter.get_text_from_dir`: its body is `pass`.
- The `lang` name-to-code table: its module is not part of this model. It is a map parameter, and a missing name raises `KeyError`.
- Widget names such as `convert_{uid}`: only the distinctness of the uids is proved, not that of the formatted names.
- Dear PyGui plumbing: window, menu and widget construction, `_clear_panel`, `_delete_widgets` (the payloads' delete lists are empty), `__resize_windows`, and logging.
- `save_prompt` and `save_text`: a file dialog and a file write. Save clicks do not change any button or value of the pane.
- `create_convert_window`: dead code that appends to a list the class never creates.
- `main.py`, `test.py`, `src/run.py` and `polybiblioglot/components/__init__.py`. These are an earlier GUI variant, a rendering demo, argument parsing and re-exports.
- Concurrency: the GUI runs callbacks one at a time, and the model applies clicks in sequence.
