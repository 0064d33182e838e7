# OCR-Recognition — a verified model of the recognition policy and the UI text logic

This project models the decision logic of the OCR-Recognition application in Dafny and proves properties of it. It covers three groups.

- **Scan pipeline** (`scan_to_text.py`, module `ScanOcr`):
  - the text plausibility score `_text_ratio`;
  - the resolution bands of `_resize`;
  - the dark-pixel gate and rectangle-angle normalisation of `_deskew`;
  - the Tesseract language choice;
  - the three-attempt retry/selection loop of `_ocr_tesseract`;
  - the engine dispatch and result gate of `scan_to_text`.
- **Image pipeline** (`image_to_text.py`, module `ImageOcr`):
  - the Hough-angle filter and the `np.median` skew estimate of `preprocess_image`;
  - the form-feed cleanup and the success/failure record of `image_to_text`.
- **UI helper** (`frontend.py`, modules `FrontendText`, `FrontendTheme` and `FrontendSession`):
  - `_is_en` and the mode classification;
  - the stripped non-empty line normalisation, which `app.py` reuses for "Full Text";
  - the `key: value` line filter and the Excel row extraction of `download_block`;
  - the theme palettes and the `{placeholder}` substitution of `inject_theme_css`;
  - `st.session_state`, modelled as a class. Its methods are `begin_route_transition`, the transition-flag readers and `manual_kv_selector_ui`.

`Strings` holds the Python `str` operations the code relies on: `strip`, `lower`, `split`, `join`, `replace`, `in` and `startswith`. `Wrappers` holds `Option`, `Result` and the `{"success", "text"/"message"}` record as `Outcome`. `Raster` holds a grey image as rows of bytes.

OpenCV, Tesseract, Gemini and Streamlit widgets are parameters. They are passed as functions (the `Engines`, `Recognizer` and `ImageEnv` records, and the `checkbox` oracle). Image loading, the Gemini call and the Tesseract engine return a `Result`, and image decoding an `Option`; an `Err` value stands for the exception the call raises, `None` for the `None` that `imdecode` returns. The other OpenCV stages are total functions (see "## Left out").

The code and its design notes disagree in a few places. The model follows the code:
- The score of a whitespace-only text is 1.0, not 0.0, because `isspace` characters count as valid (scan_to_text.py:63).
- `scan_to_text` accepts any non-empty text. It has no 80% quality gate (scan_to_text.py:127-131).

## Model

| member | source | states |
|---|---|---|
| Strings.Strip | image_to_text.py:69 | the result has no whitespace at either end, with whitespace as Python's `isspace` set |
| Strings.StripShape | image_to_text.py:69 | every text is a whitespace prefix, then its `strip`, then a whitespace suffix |
| Strings.StripCuts | image_to_text.py:69 | `strip` keeps one contiguous slice of the text and removes only whitespace before and after it |
| Strings.StripUnique | frontend.py:173 | stripping whitespace + r + whitespace, where r is already stripped, gives exactly r |
| Strings.StripIdempotent | image_to_text.py:69 | stripping twice is stripping once |
| Strings.StripPadded | frontend.py:27 | surrounding whitespace does not change the result of `strip` |
| Strings.StripEmptyIff | scan_to_text.py:112 | `strip` gives "" exactly when the text is all whitespace |
| Strings.StripKeepsOut | image_to_text.py:69 | stripping never introduces a character that was absent |
| Strings.StripOfStripped | frontend.py:173 | a stripped text is its own `strip` |
| Strings.LowerConcat | frontend.py:27 | lower-casing distributes over concatenation |
| Strings.StripLower | frontend.py:342 | `lower().strip()` and `strip().lower()` agree |
| Strings.LowerKeepsSpace | frontend.py:27 | lower-casing maps whitespace to whitespace |
| Strings.IsInfixIff | scan_to_text.py:67 | `p in s` holds exactly when p occurs at some index of s |
| Strings.IsInfixChar | frontend.py:119 | for a single character, `in` is sequence membership |
| Strings.FirstCharAbsent | scan_to_text.py:67 | a pattern whose first character does not occur is not a substring |
| Strings.ReplaceAllAbsent | frontend.py:48 | `replace` of a pattern that does not occur leaves the text unchanged |
| Strings.ReplaceCharByEmpty | image_to_text.py:69 | deleting a character removes every occurrence, never lengthens, and changes nothing when the character is absent |
| Strings.ReplaceAllAtFront | frontend.py:42 | a leading occurrence is replaced and scanning resumes after it |
| Strings.ReplaceAllStep | frontend.py:48 | a position where the pattern does not start is copied through |
| Strings.ReplaceAllKeepsPrefix | frontend.py:48 | a prefix in which the pattern starts nowhere is copied through unchanged |
| Strings.IndexOf | frontend.py:184 | the index of the first occurrence of a character |
| Strings.Split | frontend.py:173 | `split(sep)` gives at least one part, and no part contains the separator |
| Strings.JoinSplit | frontend.py:173 | joining the parts of a split with the separator restores the text |
| Strings.SplitJoin | frontend.py:192 | splitting a join of separator-free parts restores the parts |
| Strings.JoinMembers | app.py:119-121 | a non-separator character occurs in a join exactly when it occurs in one of the parts |
| Strings.SplitAtFirst | frontend.py:184 | `split(":", 1)` puts the head, which contains no separator, before the first separator, and head + sep + rest is the line |
| ScanOcr.CountValid | scan_to_text.py:63 | the number of alnum-or-space characters is at most the length, and equals it exactly when every character is valid |
| ScanOcr.TextRatio | scan_to_text.py:60-64 | 0.0 for the empty text; otherwise valid/len, which lies in [0, 1] and is 1.0 exactly when every character is valid |
| ScanOcr.Fraction | scan_to_text.py:64 | n/d lies in [0, 1] for n <= d and is 1 exactly when n == d |
| ScanOcr.FractionMonotone | scan_to_text.py:64 | a larger count over the same length is a larger ratio |
| ScanOcr.CountValidUpdate | scan_to_text.py:63 | replacing a valid character by an invalid one lowers the count by one |
| ScanOcr.NoiseLowersRatio | scan_to_text.py:60-64 | replacing a valid character by noise strictly lowers the score |
| ScanOcr.ResizeBands | scan_to_text.py:26-35 | a long side > 2200 downscales by 2200/side < 1; < 900 upscales by 1300/max(1, side) > 1; in [900, 2200] the image is kept |
| ScanOcr.ResizeLandsInBand | scan_to_text.py:26-35 | the nominal long side after `_resize` lies in [900, 2200] |
| ScanOcr.Resize | scan_to_text.py:26-35 | an image whose long side is in band is returned unchanged; any other is resampled by the factor of its band, which lands its long side in [900, 2200] (ResizeBands) |
| ScanOcr.DarkInRow | scan_to_text.py:38 | a row's count of pixels < 200 is at most the row length |
| ScanOcr.DarkCount | scan_to_text.py:38 | the dark-pixel count is at most the pixel count |
| ScanOcr.BlankRowHasNoDark | scan_to_text.py:38 | a row with no pixel below 200 has no dark pixel |
| ScanOcr.BlankHasNoDark | scan_to_text.py:38-40 | an image with no pixel below 200 has dark count 0 |
| ScanOcr.SkewCorrection | scan_to_text.py:41-45 | the correction is −(90+a) or −a; for a in [−90, 0] it lies in (−45, 45] |
| ScanOcr.DeskewGate | scan_to_text.py:38-41 | fewer than 100 pixels, or a blank image, gives no rotation; a rotation implies at least 100 dark pixels |
| ScanOcr.Deskew | scan_to_text.py:37-48 | an image with fewer than 100 dark pixels is returned unchanged |
| ScanOcr.TessLang | scan_to_text.py:67 | the language is "eng" or "vie+eng" |
| ScanOcr.TessLangChoice | scan_to_text.py:67 | "eng" exactly when the lower-cased hint contains "eng"; "English" gives "eng" and "Tiếng Việt" gives "vie+eng" |
| ScanOcr.NoEngInVietnamese | scan_to_text.py:67 | "tiếng việt" does not contain "eng" |
| ScanOcr.Try | scan_to_text.py:68-70 | a successful attempt's text is stripped |
| ScanOcr.FirstBestSingle | scan_to_text.py:72 | a single attempt is its own first best |
| ScanOcr.FirstBestExtend | scan_to_text.py:76-77 | a strictly better new attempt becomes the first best; a tie or worse keeps the earlier one |
| ScanOcr.OcrTesseract | scan_to_text.py:66-82 | 1 to 3 calls in the fixed order (Proc, 6), (Inv, 6), (Proc, 4); a further call happens only after a score < 0.6; one call exactly when the first score is >= 0.6; the result is the first attempt with the strictly greatest score, and its score is >= the first one's; an engine error ends the run |
| ScanOcr.ChooseModelProperties | scan_to_text.py:110 | the model used is the given name or the default, is never empty when the default is not, and is kept when passed back in |
| ScanOcr.ScanToText | scan_to_text.py:102-134 | a case-insensitive "gemini" makes exactly one Gemini call and returns its stripped text, the empty-reply message or the "Lỗi Scan OCR: Gemini OCR error: " failure; any other engine makes only Tesseract calls; undecodable bytes fail before any call; decodable bytes give the Tesseract outcome on the resized, deskewed, preprocessed page; success implies text that is non-empty after strip |
| ScanOcr.TesseractScan | scan_to_text.py:125-134 | the calls follow the schedule and stop at the first score >= 0.6 or an engine error; an error gives "Lỗi Scan OCR: " + its message; otherwise the earliest best text is the answer, an empty one giving the Tesseract message |
| ScanOcr.TesseractAcceptsScoredText | scan_to_text.py:126-131 | there is no 80% gate: with every call answered, a text with any positive score makes the scan succeed, and a success carries a best-scoring text |
| ImageOcr.KeptAnglesMembers | image_to_text.py:24-27 | an angle is kept exactly when it was detected and lies strictly inside (−45, 45); ±45 are excluded |
| ImageOcr.CollectAngles | image_to_text.py:23-27 | the loop builds exactly the kept angles, in detection order |
| ImageOcr.Insert | image_to_text.py:29 | inserting into an ascending sequence keeps it ascending and adds exactly that element |
| ImageOcr.Sort | image_to_text.py:29 | the sort is ascending and a permutation of its input |
| ImageOcr.SortedUnique | image_to_text.py:29 | two ascending permutations of the same values are equal |
| ImageOcr.SortMembers | image_to_text.py:29 | the sorted values are the input values |
| ImageOcr.MedianBounds | image_to_text.py:29 | the median lies in every closed or open interval that holds all the values |
| ImageOcr.MedianOddIsMember | image_to_text.py:29 | an odd count has its median among the values |
| ImageOcr.MedianPermutation | image_to_text.py:29 | the median does not depend on detection order |
| ImageOcr.EstimateSkew | image_to_text.py:20-29 | no lines or no kept angle gives 0; otherwise the median of the kept angles; always strictly inside (−45, 45) |
| ImageOcr.SkewOf | image_to_text.py:20-29 | the skew angle always lies strictly inside (−45, 45) |
| ImageOcr.PreprocessImage | image_to_text.py:8-33 | the angle is 0 without lines or kept angles and otherwise the median of the kept angles, inside (−45, 45); the page is the blurred image rotated by it, then enhanced |
| ImageOcr.CleanText | image_to_text.py:69 | the cleaned text has no form feed and no surrounding whitespace |
| ImageOcr.CleanTextIdempotent | image_to_text.py:69 | cleaning twice is cleaning once |
| ImageOcr.ToOutcome | image_to_text.py:71-76 | success carries exactly the cleaned, non-empty text; an empty cleaned text or an error gives a failure |
| ImageOcr.SuccessTextIsClean | image_to_text.py:69-73 | a success record's text has no form feed and is its own `strip` |
| ImageOcr.ImageToText | image_to_text.py:54-76 | a load error gives the "Lỗi xử lý ảnh: " failure; after a load the result is the record built from Tesseract's reply on the preprocessed page, so it succeeds exactly when the cleaned text is non-empty; a success carries non-empty, stripped, form-feed-free text |
| FrontendText.IsEnIgnoresPadding | frontend.py:26-27 | surrounding whitespace does not change `_is_en` |
| FrontendText.IsEnIgnoresCase | frontend.py:26-27 | lower-casing the label does not change `_is_en` |
| FrontendText.IsEnSidebarChoices | frontend.py:35 | "English" is English and "Tiếng Việt" is not |
| FrontendText.ClassifyMode | frontend.py:119 | a label with 📸 is image; else with 📄 pdf; else with 📷 scan; else speech, each as an if-and-only-if |
| FrontendText.EnglishModeLabels | app.py:37 | the four English radio labels classify as image, pdf, scan, speech |
| FrontendText.VietnameseModeLabels | app.py:37 | the Vietnamese image, scan and speech labels classify correctly |
| FrontendText.StrippedLines | frontend.py:173 | there are at most as many kept lines as parts |
| FrontendText.StrippedLinesClean | frontend.py:173 | every kept line is non-empty and stripped |
| FrontendText.StrippedLinesConcat | frontend.py:173 | the normalisation distributes over concatenation of the parts |
| FrontendText.StrippedLinesMembers | frontend.py:173 | a line is kept exactly when it is the non-empty strip of some part |
| FrontendText.StrippedLinesFixed | frontend.py:173 | parts that are already non-empty and stripped are kept as they are |
| FrontendText.NonEmptyLines | frontend.py:173 | every line is non-empty, stripped and free of newlines |
| FrontendText.NoNewlineSurvives | frontend.py:173 | parts without newlines give lines without newlines |
| FrontendText.FullTextIdempotent | app.py:119-121 | normalising the "Full Text" result again gives the same lines and the same text |
| FrontendText.KvLines | frontend.py:174 | every kept line contains ':' |
| FrontendText.KvLinesMembers | frontend.py:174 | a line is kept exactly when it is a line of the input that contains ':' |
| FrontendText.KvLinesConcat | frontend.py:174 | the filter keeps the original order (it distributes over concatenation) |
| FrontendText.KvLinesFixed | frontend.py:174 | lines that all contain ':' are kept as they are |
| FrontendText.SelectorLines | frontend.py:173-174 | every kv line is non-empty, stripped, contains ':' and has no newline |
| FrontendText.RowOfSplitsAtFirstColon | frontend.py:220-222 | a row's Field is the stripped text before the first ':' and contains no ':'; its Value is the stripped remainder |
| FrontendText.RowsOfKvLines | frontend.py:218-222 | one row per line containing ':', in order, each that line's row |
| FrontendText.ExcelRowsEmptyIff | frontend.py:218-223 | there are no rows exactly when the text has no ':' |
| FrontendText.ExcelRowsOfSelection | frontend.py:218-222 | joining kv lines and extracting rows gives one row per line, in order |
| FrontendText.BuildRows | frontend.py:218-222 | the loop builds exactly the rows of the text |
| FrontendText.DownloadBlock | frontend.py:196-234 | TXT and DOCX carry the text under `<base>.txt`/`<base>.docx`; Excel with no ':' gives only the note; otherwise a non-empty `<base>.xlsx` of the rows |
| FrontendTheme.CssVarsIgnoresCaseAndPadding | frontend.py:340-342 | the palette depends only on the theme name: surrounding whitespace and upper case change nothing |
| FrontendTheme.PalettesCoverThemeKeys | frontend.py:340-375 | every palette has exactly the keys bg, card_bg, border, glow, accent, accent_soft, text, sub, and no value contains '{' |
| FrontendTheme.ThemeKeysAreNames | frontend.py:401-408 | every theme key is a lower-case placeholder name |
| FrontendTheme.NeonBraceFree | frontend.py:344-353 | no neon value contains '{' |
| FrontendTheme.GlassBraceFree | frontend.py:355-364 | no glass value contains '{' |
| FrontendTheme.MinimalBraceFree | frontend.py:366-375 | no minimal value contains '{' |
| FrontendTheme.IconLabelKey | frontend.py:42 | the theme key of icon + name is the stripped, lower-cased name |
| FrontendTheme.NoIconInName | frontend.py:42 | removing an icon from a name without icons changes nothing |
| FrontendTheme.DropOwnIcon | frontend.py:42 | removing a label's own icon leaves the name |
| FrontendTheme.NoIconAfter | frontend.py:42 | removing a different icon leaves the label unchanged |
| FrontendTheme.NeonLabelPicksNeon | frontend.py:36-43 | the label "✨ Neon Cyber" selects the neon palette |
| FrontendTheme.GlassLabelPicksGlass | frontend.py:36-43 | the label "🧊 Glass Morph" selects the glass palette |
| FrontendTheme.MinimalLabelPicksMinimal | frontend.py:36-43 | the label "🌚 Minimal Dark" selects the minimal palette |
| FrontendTheme.PlaceholderInjective | frontend.py:48 | the name reads back from between the braces of its placeholder, so distinct names have distinct placeholders |
| FrontendTheme.InjectThemeCss | frontend.py:40-50 | the markup is `<style>` + the base CSS with each palette entry's placeholder replaced in palette order + `</style>` |
| FrontendTheme.NameEnd | frontend.py:48 | the end of a placeholder name lies between its start and the end of the text |
| FrontendTheme.ResolveAll | frontend.py:48 | each template piece is resolved on its own |
| FrontendTheme.MatchStaysInLit | frontend.py:46-48 | a placeholder that matches across a literal's end already matches inside it, when the literal's braces are closed |
| FrontendTheme.MatchInPlaceholder | frontend.py:46-48 | inside a placeholder, another placeholder matches only at its start and only for the same name |
| FrontendTheme.FillAll | frontend.py:48 | filling a name replaces exactly the pieces for that name |
| FrontendTheme.ReplaceOne | frontend.py:48 | one `replace("{k}", v)` on a template's text fills exactly the k slots and leaves every literal brace untouched |
| FrontendTheme.FillKeepsTemplate | frontend.py:47-48 | a brace-free value keeps the result a valid template for the next replacement |
| FrontendTheme.ApplyAllRenders | frontend.py:45-48 | the replacement loop over a template equals rendering every placeholder with its palette value, leaving other brace text unchanged |
| FrontendTheme.BlockBracesAreLiteral | frontend.py:400-409 | CSS text whose braces open rule bodies contains no placeholder and keeps its braces closed |
| FrontendTheme.ThemeBlockOpening | frontend.py:400-401 | the `:root {` opening is CSS rule text, not a placeholder |
| FrontendTheme.ThemeBlockDeclarations | frontend.py:401-409 | the text between the placeholders contains no brace |
| FrontendTheme.ThemeBlockLiterals | frontend.py:400-409 | every literal piece of the theme block is rule text |
| FrontendTheme.ThemeBlockIsTemplate | frontend.py:400-409 | the theme block is a template over exactly the eight theme keys |
| FrontendTheme.ThemeBlockRendered | frontend.py:400-409 | substituting the theme block for any label fills each `--fx-*` declaration with the chosen palette's value |
| FrontendSession.AfterTransition | frontend.py:309-311 | the current mode is stored, the flag is a boolean, and every other entry is unchanged |
| FrontendSession.TransitionFlag | frontend.py:309-310 | the flag is set exactly when a previous non-None mode exists and differs from the current one |
| FrontendSession.TransitionStable | frontend.py:309-311 | the first transition of a session and a rerun in the same mode leave the flag unset |
| FrontendSession.TransitionSwitch | frontend.py:309-311 | switching modes sets the flag, and the next rerun in the new mode clears it |
| FrontendSession.PageClass | frontend.py:319-320 | the page class is "fx-page enter" or "fx-page"; it animates exactly when the flag is truthy, and a missing flag counts as changed |
| FrontendSession.ShowsOverlay | frontend.py:334 | the overlay shows exactly when the flag is truthy; a missing flag counts as unchanged |
| FrontendSession.TransitionViewsAgree | frontend.py:309-336 | after a transition, the page animates exactly when the overlay shows, and that happens exactly when the mode changed |
| FrontendSession.FreshSessionDefaults | frontend.py:319-334 | before any transition the page animates and the overlay stays hidden |
| FrontendSession.Session.constructor | frontend.py:309 | a new session has no entries |
| FrontendSession.Session.BeginRouteTransition | frontend.py:304-311 | the new session state is the state after the transition |
| FrontendSession.Session.TransitionContainerStart | frontend.py:314-321 | writes `<div class="…">` with the page class; a missing flag opens the animated page |
| FrontendSession.Session.TransitionOverlay | frontend.py:329-336 | writes the overlay exactly when the flag is present and set |
| FrontendSession.PutUpdates | frontend.py:188 | assigning to a key already present keeps the order of the keys and changes only that entry's value |
| FrontendSession.PutAppends | frontend.py:188 | assigning to a new key appends it after every existing key |
| FrontendSession.Dedup | frontend.py:182-188 | the distinct lines, without duplicates, and exactly the lines of the input |
| FrontendSession.LastIndex | frontend.py:183-188 | the index of the last occurrence: it holds the line and no later index does |
| FrontendSession.FindIndex | frontend.py:188 | the index of the first occurrence |
| FrontendSession.DedupKeepsFirstOccurrenceOrder | frontend.py:182-188 | the distinct lines come in the order of their first occurrence |
| FrontendSession.BuildShape | frontend.py:182-188 | `selected_map` has one entry per distinct kv line, in first-occurrence order, holding the tick of its last occurrence |
| FrontendSession.MapOf | frontend.py:190 | the stored dict's keys are exactly the keys of `selected_map` |
| FrontendSession.MapOfValues | frontend.py:190 | the stored dict holds each entry's value |
| FrontendSession.KeepTicked | frontend.py:191 | a reference filter: a line is kept exactly when it is listed and its last tick is set |
| FrontendSession.SelectedFilters | frontend.py:191 | the comprehension over `items()` is that filter over the keys |
| FrontendSession.KeepTickedNoDup | frontend.py:191 | filtering distinct lines gives distinct lines |
| FrontendSession.SelectionOfBuild | frontend.py:182-191 | the selected lines are the distinct kv lines whose last checkbox is ticked, with no duplicates, in first-occurrence order; the stored dict's keys are exactly the current kv lines (vanished lines are dropped), each holding its last tick |
| FrontendSession.OfferedTicks | frontend.py:176-187 | checkbox i is offered the tick saved for its line when the session holds a dict with that line, and the default otherwise |
| FrontendSession.FilteredRoundTrip | frontend.py:192 | split at newlines, the filtered text gives back the selected lines; with nothing selected it is one placeholder line, "(No field selected)" or "(Không có trường nào được chọn)" |
| FrontendSession.PlaceholdersExportNoRows | frontend.py:192 | the placeholders contain no ':', so their Excel export has no rows |
| FrontendSession.SelectionExportsRows | frontend.py:192 | a non-empty selection exports as one Excel row per selected line, in order |
| FrontendSession.SelectorRerunStable | frontend.py:177-190 | a rerun with no checkbox touched stores the same selection |
| FrontendSession.SelectorRerunSameChoice | frontend.py:182-191 | a rerun with no checkbox touched returns the same selected lines |
| FrontendSession.RerunTicks | frontend.py:186-187 | feeding the stored dict back in reproduces the same ticks |
| FrontendSession.SelectorFirstRun | frontend.py:177-191 | on a first run with no checkbox touched, every distinct kv line is selected when the default is ticked, and none otherwise |
| FrontendSession.CheckFields | frontend.py:182-188 | the checkbox loop builds exactly `selected_map` from the kv lines and the ticks |
| FrontendSession.Session.EnsureFields | frontend.py:177-178 | the selection entry becomes the saved dict, or one with every kv line at the default; other entries are unchanged |
| FrontendSession.Session.ManualKvSelector | frontend.py:161-193 | the new session state, the selected lines and the filtered text are those of one selector run on the old state |

## Left out

- `Strings.Lower`: only ASCII letters are lowered, whereas Python's `str.lower` lowers every Unicode letter. The labels and hints the lemmas mention lower-case the same way under both.
- `ScanOcr.IsValidChar`: `str.isalnum` is an abstract predicate parameter, because the Unicode character database is not modelled. `isspace` uses Python's exact whitespace set.
- `ScanOcr.TextRatio`: the score is an exact rational, not a float. Comparisons at the 0.6 threshold may differ from IEEE rounding.
- `ScanOcr.Resize`: OpenCV's interpolation and the rounding of the output size are not modelled. Only the branch taken and the nominal scale factor are.
- `ScanOcr.Deskew` and `ImageOcr.PreprocessImage`: `minAreaRect`, `HoughLines`, `getRotationMatrix2D`/`warpAffine`, blurring, CLAHE, thresholding, morphology, `filter2D`, `convertScaleAbs` and `bitwise_not` are function parameters. `theta·180/π − 90` is taken as already converted to degrees.
- `ImageOcr.ImageToText`: `cv2.imread` returning `None` (which later raises in `cvtColor`) is modelled as a load error. The temporary `temp_processed.png` file is not modelled.
- OpenCV stages other than loading never fail in the model: `Engines.resample`, `rectAngle`, `rotate` and `preprocess`, `Recognizer.invert`, and `ImageEnv.blur`, `lineDegrees`, `rotate` and `enhance` are total functions. In the source an exception in any of them, in `cvtColor` (scan_to_text.py:121), or in `imdecode` on an empty buffer is caught and becomes "Lỗi Scan OCR: …" (scan_to_text.py:133-134) or "Lỗi xử lý ảnh: …" (image_to_text.py:75-76); the model does not produce those failures.
- Tesseract and Gemini calls are oracles that return text or an error. The prompt, the SDK configuration and the API key are not modelled.
- `scan_to_text._preprocess` is modelled only as an opaque stage.
- `speech_to_text.py` and `smart_ai_extract.py` are not part of this model. They wrap speech and generative-AI services.
- `app.py` is not modelled beyond the "Full Text" line normalisation and the mode labels. It is widget layout, temp-file handling and a signature-probing fallback.
- Streamlit rendering is not modelled:
  - the widget labels, the `st.write` prompt and `_esc` (`html.escape`) of the checkbox labels;
  - `hero_header`, `section`, `callout`, `checklist`, `breadcrumbs`, `transition_container_end`;
  - the texts of `quick_summary` and `contextual_help` (only their mode classification is modelled).
- `FrontendTheme.InjectThemeCss`: only the `:root` block of `_BASE_CSS` is modelled as a concrete template. The method works for any base CSS, but the rest of the stylesheet literal is not reproduced.
- `FrontendText.DownloadBlock`: writing the DOCX and XLSX files and the temp files is not modelled. The download is described by its file name and its content: the text, the paragraph or the rows.
- `FrontendSession.Session.ManualKvSelector`:
  - `raw_text` being `None` is not modelled; the text is always a string.
  - The stored dict is modelled as a map, because its order is never read back.
  - Widget keys (`f"{prefix}_chk_{i}"`) are the index passed to the checkbox oracle.
- `FrontendSession.Value`: session entries other than strings, booleans, dicts and `None` are seen only through their truth value.
