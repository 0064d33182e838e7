/**
 * The camera-scan OCR path (`scan_to_text.py`): the text plausibility score,
 * the working-resolution policy, the deskew gate and angle normalisation, the
 * three-attempt Tesseract retry policy, and the engine dispatch with its
 * result gate.  Pixel operations (decoding, resampling, rotation, the
 * binarisation pipeline, inversion), the minimum-area rectangle, Tesseract and
 * Gemini are parameters: they are foreign code whose own logic is not modelled.
 */
module ScanOcr {
  import opened Wrappers
  import opened Strings
  import opened Raster

  function Max(a: int, b: int): int { if a >= b then a else b }

  // ------------------------------------------------------------ _text_ratio

  /** The characters `_text_ratio` accepts: alphanumeric (Unicode `isalnum`, a parameter) or whitespace. */
  predicate IsValidChar(c: char, isAlnum: char -> bool) {
    isAlnum(c) || IsSpace(c)
  }

  predicate AllValid(s: string, isAlnum: char -> bool) {
    forall i | 0 <= i < |s| :: IsValidChar(s[i], isAlnum)
  }

  /** `sum(ch.isalnum() or ch.isspace() for ch in s)` */
  function CountValid(s: string, isAlnum: char -> bool): (n: nat)
    ensures n <= |s|
    ensures n == |s| <==> AllValid(s, isAlnum)
  {
    if |s| == 0 then 0
    else (if IsValidChar(s[0], isAlnum) then 1 else 0) + CountValid(s[1..], isAlnum)
  }

  /** `_text_ratio(s)`, as an exact ratio rather than a float. */
  function TextRatio(s: string, isAlnum: char -> bool): (r: real)
    ensures 0.0 <= r <= 1.0
    ensures s == [] ==> r == 0.0
    ensures r == 1.0 <==> s != [] && AllValid(s, isAlnum)
  {
    if |s| == 0 then 0.0
    else
      var n := CountValid(s, isAlnum);
      var d := Max(1, |s|);
      Fraction(n, d);
      n as real / d as real
  }

  lemma Fraction(n: nat, d: nat)
    requires 0 < d && n <= d
    ensures 0.0 <= n as real / d as real <= 1.0
    ensures n as real / d as real == 1.0 <==> n == d
  {
    var q := n as real / d as real;
    assert q * d as real == n as real;
  }

  lemma FractionMonotone(m: nat, n: nat, d: nat)
    requires 0 < d && m < n
    ensures m as real / d as real < n as real / d as real
  {
    var p, q := m as real / d as real, n as real / d as real;
    assert p * d as real == m as real;
    assert q * d as real == n as real;
    assert (q - p) * d as real == (n - m) as real;
  }

  lemma {:induction false} CountValidUpdate(s: string, i: nat, c: char, isAlnum: char -> bool)
    requires i < |s| && IsValidChar(s[i], isAlnum) && !IsValidChar(c, isAlnum)
    ensures CountValid(s[i := c], isAlnum) + 1 == CountValid(s, isAlnum)
    decreases |s|
  {
    if i > 0 {
      assert s[i := c][1..] == s[1..][i - 1 := c];
      CountValidUpdate(s[1..], i - 1, c, isAlnum);
    }
  }

  /** Replacing a plausible character by symbol noise strictly lowers the score. */
  lemma NoiseLowersRatio(s: string, i: nat, c: char, isAlnum: char -> bool)
    requires i < |s| && IsValidChar(s[i], isAlnum) && !IsValidChar(c, isAlnum)
    ensures TextRatio(s[i := c], isAlnum) < TextRatio(s, isAlnum)
  {
    CountValidUpdate(s, i, c, isAlnum);
    FractionMonotone(CountValid(s[i := c], isAlnum), CountValid(s, isAlnum), |s|);
  }

  // ---------------------------------------------------------------- _resize

  const UpperSide := 2200
  const LowerSide := 900
  const UpTarget := 1300

  /** Which branch `_resize` takes, with the scale factor it passes to `cv2.resize`. */
  datatype ResizeStep = Downscale(factor: real) | Upscale(factor: real) | Keep

  function ResizePlan(h: nat, w: nat): ResizeStep {
    var m := Max(h, w);
    if m > UpperSide then Downscale(UpperSide as real / m as real)
    else if m < LowerSide then Upscale(UpTarget as real / Max(1, m) as real)
    else Keep
  }

  /** The three outcomes of `_resize` and the scale each one applies. */
  lemma ResizeBands(h: nat, w: nat)
    ensures Max(h, w) > UpperSide ==>
      ResizePlan(h, w).Downscale? && 0.0 < ResizePlan(h, w).factor < 1.0
      && ResizePlan(h, w).factor * Max(h, w) as real == UpperSide as real
    ensures Max(h, w) < LowerSide ==>
      ResizePlan(h, w).Upscale? && ResizePlan(h, w).factor > 1.0
      && ResizePlan(h, w).factor * Max(1, Max(h, w)) as real == UpTarget as real
    ensures LowerSide <= Max(h, w) <= UpperSide <==> ResizePlan(h, w).Keep?
  {
    var m := Max(h, w);
    if m > UpperSide {
      var f := UpperSide as real / m as real;
      assert f * m as real == UpperSide as real;
    } else if m < LowerSide {
      var d := Max(1, m) as real;
      var f := UpTarget as real / d;
      assert f * d == UpTarget as real;
      assert d < UpTarget as real;
    }
  }

  /** The longer side `_resize` aims for (before OpenCV rounds the pixel count). */
  function NominalLongSide(h: nat, w: nat): real {
    match ResizePlan(h, w)
    case Downscale(f) => f * Max(h, w) as real
    case Upscale(f) => f * Max(h, w) as real
    case Keep => Max(h, w) as real
  }

  /** Every non-empty image is brought into the working band [900, 2200]. */
  lemma ResizeLandsInBand(h: nat, w: nat)
    requires Max(h, w) >= 1
    ensures LowerSide as real <= NominalLongSide(h, w) <= UpperSide as real
  {
    ResizeBands(h, w);
  }

  /** `_resize(gray)`; both axes share one factor, so the aspect ratio is kept. */
  function Resize(g: Gray, resample: (Gray, real) -> Gray): (r: Gray)
    ensures LowerSide <= Max(Height(g), Width(g)) <= UpperSide ==> r == g
    ensures !(LowerSide <= Max(Height(g), Width(g)) <= UpperSide) ==>
      r == resample(g, ResizePlan(Height(g), Width(g)).factor)
  {
    match ResizePlan(Height(g), Width(g))
    case Downscale(f) => resample(g, f)
    case Upscale(f) => resample(g, f)
    case Keep => g
  }

  // ---------------------------------------------------------------- _deskew

  const DarkLevel := 200
  const MinDarkPixels := 100

  function PixelCount(rows: seq<seq<byte>>): nat {
    if |rows| == 0 then 0 else |rows[0]| + PixelCount(rows[1..])
  }

  function DarkInRow(row: seq<byte>): (n: nat)
    ensures n <= |row|
  {
    if |row| == 0 then 0 else (if row[0] < DarkLevel then 1 else 0) + DarkInRow(row[1..])
  }

  /** `len(np.column_stack(np.where(gray < 200)))`: how many pixels are darker than 200. */
  function DarkCount(rows: seq<seq<byte>>): (n: nat)
    ensures n <= PixelCount(rows)
  {
    if |rows| == 0 then 0 else DarkInRow(rows[0]) + DarkCount(rows[1..])
  }

  predicate Blank(rows: seq<seq<byte>>) {
    forall y, x | 0 <= y < |rows| && 0 <= x < |rows[y]| :: rows[y][x] >= DarkLevel
  }

  lemma {:induction false} BlankRowHasNoDark(row: seq<byte>)
    requires forall x | 0 <= x < |row| :: row[x] >= DarkLevel
    ensures DarkInRow(row) == 0
    decreases |row|
  {
    if |row| > 0 {
      BlankRowHasNoDark(row[1..]);
    }
  }

  /** A page with no pixel darker than 200 has no dark pixels at all. */
  lemma {:induction false} BlankHasNoDark(rows: seq<seq<byte>>)
    requires Blank(rows)
    ensures DarkCount(rows) == 0
    decreases |rows|
  {
    if |rows| > 0 {
      BlankRowHasNoDark(rows[0]);
      assert Blank(rows[1..]) by {
        forall y, x | 0 <= y < |rows[1..]| && 0 <= x < |rows[1..][y]| ensures rows[1..][y][x] >= DarkLevel {
          assert rows[1..][y] == rows[y + 1];
        }
      }
      BlankHasNoDark(rows[1..]);
    }
  }

  /**
   * The rotation `_deskew` applies, from the angle `cv2.minAreaRect` reports.
   * The range below assumes the angle convention [-90, 0) of older OpenCV
   * releases; releases that report angles in (0, 90] never take the first
   * branch, and the correction is then -a, in [-90, 0).
   */
  function SkewCorrection(a: real): (c: real)
    ensures -90.0 <= a <= 0.0 ==> -45.0 < c <= 45.0
    ensures c + a == 0.0 || c + a == -90.0
  {
    if a < -45.0 then -(90.0 + a) else -a
  }

  /** What `_deskew` does to an image. */
  datatype Rotation = NoRotation | Rotate(angle: real)

  function DeskewPlan(g: Gray, rectAngle: Gray -> real): Rotation {
    if DarkCount(g.rows) < MinDarkPixels then NoRotation
    else Rotate(SkewCorrection(rectAngle(g)))
  }

  /** Too little ink, including every blank page and every image under 100 pixels, means no rotation. */
  lemma DeskewGate(g: Gray, rectAngle: Gray -> real)
    ensures PixelCount(g.rows) < MinDarkPixels ==> DeskewPlan(g, rectAngle) == NoRotation
    ensures Blank(g.rows) ==> DeskewPlan(g, rectAngle) == NoRotation
    ensures DeskewPlan(g, rectAngle).Rotate? ==> DarkCount(g.rows) >= MinDarkPixels
  {
    if Blank(g.rows) {
      BlankHasNoDark(g.rows);
    }
  }

  /** `_deskew(gray)`: the image itself, or its rotation about the centre. */
  function Deskew(g: Gray, rectAngle: Gray -> real, rotate: (Gray, real) -> Gray): (r: Gray)
    ensures DarkCount(g.rows) < MinDarkPixels ==> r == g
  {
    match DeskewPlan(g, rectAngle)
    case NoRotation => g
    case Rotate(angle) => rotate(g, angle)
  }

  // ---------------------------------------------------------- _ocr_tesseract

  /** The Tesseract language for a UI language label. */
  function TessLang(langUi: string): (l: string)
    ensures l == "eng" || l == "vie+eng"
  {
    if IsInfix("eng", Lower(langUi)) then "eng" else "vie+eng"
  }

  /** "English" selects English only; any label without "eng" in it gets Vietnamese plus English. */
  lemma TessLangChoice(langUi: string)
    ensures TessLang(langUi) == "eng" <==> exists i: nat :: MatchAt(Lower(langUi), i, "eng")
    ensures TessLang("English") == "eng"
    ensures TessLang("Tiếng Việt") == "vie+eng"
  {
    IsInfixIff("eng", Lower(langUi));
    assert Lower("English")[..3] == "eng";
    NoEngInVietnamese();
  }

  lemma NoEngInVietnamese()
    ensures !IsInfix("eng", Lower("Tiếng Việt"))
  {
    var s := Lower("Tiếng Việt");
    assert s == "tiếng việt";
    assert 'e' !in s;
    FirstCharAbsent("eng", s);
  }

  const Threshold: real := 0.6

  /** The two images Tesseract is run on: the processed page and its complement. */
  datatype Variant = Processed | Inverted

  /** One recognizer call: `_try(img, psm)`. */
  datatype Attempt = Attempt(variant: Variant, psm: nat)

  /** The attempts `_ocr_tesseract` may make, in the order it makes them. */
  const Schedule: seq<Attempt> := [Attempt(Processed, 6), Attempt(Inverted, 6), Attempt(Processed, 4)]

  /** The foreign parts of a Tesseract run: `cv2.bitwise_not` and `pytesseract.image_to_string`. */
  datatype Recognizer = Recognizer(invert: Gray -> Gray, engine: (Gray, string, nat) -> Result<string>)

  function AttemptImage(rec: Recognizer, proc: Gray, a: Attempt): Gray {
    if a.variant == Processed then proc else rec.invert(proc)
  }

  /** `_try(img, psm)`: the engine's text, stripped, or the exception it raised. */
  function Try(rec: Recognizer, proc: Gray, lang: string, a: Attempt): (r: Result<string>)
    ensures r.Ok? ==> IsStripped(r.value)
  {
    match rec.engine(AttemptImage(rec, proc, a), lang, a.psm)
    case Ok(t) => Ok(Strip(t))
    case Err(m) => Err(m)
  }

  /** Position `k` holds the highest ratio of `texts`, and no earlier text reaches it. */
  predicate IsFirstBest(texts: seq<string>, k: nat, isAlnum: char -> bool) {
    k < |texts|
    && (forall j | 0 <= j < |texts| :: TextRatio(texts[j], isAlnum) <= TextRatio(texts[k], isAlnum))
    && (forall j | 0 <= j < k :: TextRatio(texts[j], isAlnum) < TextRatio(texts[k], isAlnum))
  }

  lemma FirstBestSingle(t: string, isAlnum: char -> bool)
    ensures IsFirstBest([t], 0, isAlnum)
  {
  }

  /** Strict-improvement replacement keeps the earliest best text selected. */
  lemma FirstBestExtend(texts: seq<string>, k: nat, t: string, isAlnum: char -> bool)
    requires IsFirstBest(texts, k, isAlnum)
    ensures TextRatio(t, isAlnum) > TextRatio(texts[k], isAlnum) ==> IsFirstBest(texts + [t], |texts|, isAlnum)
    ensures TextRatio(t, isAlnum) <= TextRatio(texts[k], isAlnum) ==> IsFirstBest(texts + [t], k, isAlnum)
  {
    var u := texts + [t];
    assert forall j | 0 <= j < |texts| :: u[j] == texts[j];
  }

  /**
   * `_ocr_tesseract(proc, lang_ui)`.  Besides the text it returns the attempts
   * it made, in order, and the texts they produced, so that the retry policy
   * can be stated.
   */
  method OcrTesseract(proc: Gray, langUi: string, rec: Recognizer, isAlnum: char -> bool)
    returns (r: Result<string>, calls: seq<Attempt>, texts: seq<string>)
    ensures 1 <= |calls| <= 3 && forall j | 0 <= j < |calls| :: calls[j] == Schedule[j]
    ensures r.Ok? ==> |texts| == |calls|
    ensures r.Err? ==> |texts| == |calls| - 1
    ensures forall j | 0 <= j < |texts| :: Try(rec, proc, TessLang(langUi), calls[j]) == Ok(texts[j])
    ensures r.Err? ==> r == Try(rec, proc, TessLang(langUi), calls[|calls| - 1])
    // a further attempt is made only while every text so far scores below 0.6
    ensures forall j | 0 <= j < |texts| && j + 1 < |calls| :: TextRatio(texts[j], isAlnum) < Threshold
    ensures r.Ok? && |calls| < 3 ==> exists j | 0 <= j < |texts| :: TextRatio(texts[j], isAlnum) >= Threshold
    ensures |calls| == 1 <==> |texts| == 0 || TextRatio(texts[0], isAlnum) >= Threshold
    // the result is the best-scoring text, the earliest one on a tie
    ensures r.Ok? ==> exists k | 0 <= k < |texts| :: IsFirstBest(texts, k, isAlnum) && r.value == texts[k]
    ensures r.Ok? ==> TextRatio(r.value, isAlnum) >= TextRatio(texts[0], isAlnum)
  {
    var lang := TessLang(langUi);
    calls := [Schedule[0]];
    var t1 := Try(rec, proc, lang, Schedule[0]);
    if t1.Err? {
      return t1, calls, [];
    }
    var text := t1.value;
    texts := [text];
    ghost var best: nat := 0;
    FirstBestSingle(text, isAlnum);
    if TextRatio(text, isAlnum) < Threshold {
      calls := calls + [Schedule[1]];
      var t2 := Try(rec, proc, lang, Schedule[1]);
      if t2.Err? {
        return t2, calls, texts;
      }
      FirstBestExtend(texts, best, t2.value, isAlnum);
      texts := texts + [t2.value];
      if TextRatio(t2.value, isAlnum) > TextRatio(text, isAlnum) {
        text := t2.value;
        best := 1;
      }
    }
    if TextRatio(text, isAlnum) < Threshold {
      calls := calls + [Schedule[2]];
      var t3 := Try(rec, proc, lang, Schedule[2]);
      if t3.Err? {
        return t3, calls, texts;
      }
      FirstBestExtend(texts, best, t3.value, isAlnum);
      texts := texts + [t3.value];
      if TextRatio(t3.value, isAlnum) > TextRatio(text, isAlnum) {
        text := t3.value;
        best := 2;
      }
    }
    r := Ok(text);
  }

  // ----------------------------------------------------------- scan_to_text

  /** A call into a recognition engine made during one scan. */
  datatype Call = GeminiCall(model: string) | TesseractCall(attempt: Attempt)

  /** The foreign collaborators of `scan_to_text`. */
  datatype Engines = Engines(
    defaultModel: string,                            // GEMINI_MODEL, "gemini-2.5-flash" when unset
    gemini: (seq<byte>, string) -> Result<string>,   // the model's response text, or the error
    decode: seq<byte> -> Option<Gray>,               // cv2.imdecode followed by cvtColor
    resample: (Gray, real) -> Gray,                  // cv2.resize
    rectAngle: Gray -> real,                         // cv2.minAreaRect(...)[-1]
    rotate: (Gray, real) -> Gray,                    // getRotationMatrix2D + warpAffine
    preprocess: Gray -> Gray,                        // _preprocess
    recognizer: Recognizer)

  const GeminiEmptyMsg := "Gemini không trả về nội dung văn bản."
  const DecodeFailedMsg := "Không đọc được ảnh camera"
  const TesseractEmptyMsg := "Không nhận diện được văn bản (Tesseract)."
  const ErrorPrefix := "Lỗi Scan OCR: "
  const GeminiErrorPrefix := "Gemini OCR error: "

  /** `gem_model or _GEM_MODEL_DEFAULT`: a missing or empty name falls back to the default. */
  function ChooseModel(gemModel: Option<string>, default: string): (m: string)
    ensures gemModel.Some? && gemModel.value != "" ==> m == gemModel.value
    ensures gemModel.None? || gemModel.value == "" ==> m == default
  {
    match gemModel
    case Some(name) => if name != "" then name else default
    case None => default
  }

  /** The chosen model is the given name or the default, is never empty when the default is not, and is kept when passed back in. */
  lemma ChooseModelProperties(gemModel: Option<string>, default: string)
    ensures ChooseModel(gemModel, default) == default
         || (gemModel.Some? && ChooseModel(gemModel, default) == gemModel.value)
    ensures ChooseModel(gemModel, default) != "" <==> (gemModel.Some? && gemModel.value != "") || default != ""
    ensures ChooseModel(Some(ChooseModel(gemModel, default)), default) == ChooseModel(gemModel, default)
  {
  }

  /** The page Tesseract reads: `_preprocess(_deskew(_resize(gray)))`. */
  function Normalized(env: Engines, g: Gray): Gray {
    env.preprocess(Deskew(Resize(g, env.resample), env.rectAngle, env.rotate))
  }

  /**
   * `scan_to_text(image_bytes, lang, engine, gem_model)`; exceptions become failure records.
   * Besides the record it returns the engine calls it made and, for Tesseract,
   * the texts those calls produced.
   */
  method ScanToText(imageBytes: seq<byte>, lang: string, engine: string, gemModel: Option<string>,
                    env: Engines, isAlnum: char -> bool)
    returns (res: Outcome, calls: seq<Call>, ghost texts: seq<string>)
    ensures res.Success? ==> Strip(res.text) != []
    // the Gemini path: exactly one call, on the raw bytes
    ensures Lower(engine) == "gemini" ==>
      calls == [GeminiCall(ChooseModel(gemModel, env.defaultModel))]
      && res == match env.gemini(imageBytes, ChooseModel(gemModel, env.defaultModel))
                case Err(m) => Failure(ErrorPrefix + GeminiErrorPrefix + m)
                case Ok(t) => if Strip(t) == [] then Failure(GeminiEmptyMsg) else Success(Strip(t))
    // the Tesseract path: any other engine name
    ensures Lower(engine) != "gemini" ==> forall c | c in calls :: c.TesseractCall?
    ensures Lower(engine) != "gemini" && env.decode(imageBytes).None? ==>
      calls == [] && res == Failure(DecodeFailedMsg)
    ensures Lower(engine) != "gemini" && env.decode(imageBytes).Some? ==>
      TesseractOutcome(Normalized(env, env.decode(imageBytes).value), TessLang(lang), env.recognizer, isAlnum,
                       res, calls, texts)
  {
    if Lower(engine) == "gemini" {
      var model := ChooseModel(gemModel, env.defaultModel);
      calls := [GeminiCall(model)];
      var reply := env.gemini(imageBytes, model);
      if reply.Err? {
        return Failure(ErrorPrefix + GeminiErrorPrefix + reply.msg), calls, [];
      }
      var text := Strip(reply.value);
      StripIdempotent(reply.value);
      if Strip(text) == [] {
        return Failure(GeminiEmptyMsg), calls, [];
      }
      return Success(text), calls, [];
    }
    var decoded := env.decode(imageBytes);
    if decoded.None? {
      return Failure(DecodeFailedMsg), [], [];
    }
    var gray := decoded.value;
    gray := Resize(gray, env.resample);
    gray := Deskew(gray, env.rectAngle, env.rotate);
    var proc := env.preprocess(gray);
    res, calls, texts := TesseractScan(proc, lang, env.recognizer, isAlnum);
  }

  /**
   * What the Tesseract branch of `scan_to_text` gives for the page `page`:
   * the calls follow the schedule, a further call is made only while every
   * text so far scores below 0.6, an engine error ends the run with its
   * message, and otherwise the earliest best text is the answer whatever its
   * score (there is no quality gate), an empty one giving the Tesseract
   * message.
   */
  ghost predicate TesseractOutcome(page: Gray, tl: string, rec: Recognizer, isAlnum: char -> bool,
                                   res: Outcome, calls: seq<Call>, texts: seq<string>)
  {
    1 <= |calls| <= 3 && (forall j | 0 <= j < |calls| :: calls[j] == TesseractCall(Schedule[j]))
    && |calls| - 1 <= |texts| <= |calls|
    && (forall j | 0 <= j < |texts| :: Try(rec, page, tl, Schedule[j]) == Ok(texts[j]))
    && (forall j | 0 <= j < |texts| && j + 1 < |calls| :: TextRatio(texts[j], isAlnum) < Threshold)
    && (|calls| == 1 <==> |texts| == 0 || TextRatio(texts[0], isAlnum) >= Threshold)
    && (|texts| < |calls| ==>
          Try(rec, page, tl, Schedule[|calls| - 1]).Err?
          && res == Failure(ErrorPrefix + Try(rec, page, tl, Schedule[|calls| - 1]).msg))
    && (|texts| == |calls| ==>
          exists k | 0 <= k < |texts| ::
            IsFirstBest(texts, k, isAlnum) && res == if texts[k] == [] then Failure(TesseractEmptyMsg) else Success(texts[k]))
  }

  /**
   * There is no 80% gate: once every call has answered, a text with any
   * positive score makes the scan succeed, and a success carries the
   * best-scoring text.
   */
  lemma TesseractAcceptsScoredText(page: Gray, tl: string, rec: Recognizer, isAlnum: char -> bool,
                                   res: Outcome, calls: seq<Call>, texts: seq<string>)
    requires TesseractOutcome(page, tl, rec, isAlnum, res, calls, texts) && |texts| == |calls|
    ensures (exists j | 0 <= j < |texts| :: TextRatio(texts[j], isAlnum) > 0.0) ==> res.Success?
    ensures res.Success? ==> res.text in texts
    ensures res.Success? ==> forall j | 0 <= j < |texts| :: TextRatio(texts[j], isAlnum) <= TextRatio(res.text, isAlnum)
  {
    var k :| 0 <= k < |texts| && IsFirstBest(texts, k, isAlnum)
      && res == if texts[k] == [] then Failure(TesseractEmptyMsg) else Success(texts[k]);
    if j :| 0 <= j < |texts| && TextRatio(texts[j], isAlnum) > 0.0 {
      assert TextRatio(texts[k], isAlnum) > 0.0;
    }
  }

  /** The Tesseract branch of `scan_to_text` from `_ocr_tesseract` on. */
  method TesseractScan(proc: Gray, lang: string, rec: Recognizer, isAlnum: char -> bool)
    returns (res: Outcome, calls: seq<Call>, ghost texts: seq<string>)
    ensures TesseractOutcome(proc, TessLang(lang), rec, isAlnum, res, calls, texts)
    ensures res.Success? ==> Strip(res.text) != []
  {
    var r, attempts, produced := OcrTesseract(proc, lang, rec, isAlnum);
    texts := produced;
    calls := seq(|attempts|, j requires 0 <= j < |attempts| => TesseractCall(attempts[j]));
    if r.Err? {
      return Failure(ErrorPrefix + r.msg), calls, texts;
    }
    ghost var k :| 0 <= k < |texts| && IsFirstBest(texts, k, isAlnum) && r.value == texts[k];
    StripOfStripped(r.value);
    if Strip(r.value) == [] {
      return Failure(TesseractEmptyMsg), calls, texts;
    }
    res := Success(r.value);
  }
}
