/**
 * The uploaded-image OCR path (`image_to_text.py`): the Hough-line skew
 * estimate (keep near-horizontal angles, take their median) and the cleanup
 * of Tesseract's output into a result record.  Image loading, blurring, edge
 * and line detection, rotation, thresholding, sharpening and Tesseract are
 * parameters.
 */
module ImageOcr {
  import opened Wrappers
  import opened Strings
  import opened Raster

  // ----------------------------------------------------------- angle filter

  /** The open interval `-45 < angle_deg < 45` that a line angle must fall in. */
  predicate NearHorizontal(a: real) {
    -45.0 < a < 45.0
  }

  /** The `angles` list built from the line angles, in detection order. */
  function KeptAngles(degs: seq<real>): seq<real> {
    if |degs| == 0 then []
    else KeptAngles(degs[..|degs| - 1]) + (if NearHorizontal(degs[|degs| - 1]) then [degs[|degs| - 1]] else [])
  }

  /** An angle is kept exactly when it was detected and lies strictly inside (-45, 45). */
  lemma {:induction false} KeptAnglesMembers(degs: seq<real>)
    ensures |KeptAngles(degs)| <= |degs|
    ensures forall x :: x in KeptAngles(degs) <==> x in degs && NearHorizontal(x)
    decreases |degs|
  {
    if |degs| > 0 {
      var init := degs[..|degs| - 1];
      KeptAnglesMembers(init);
      assert degs == init + [degs[|degs| - 1]];
    }
  }

  /** The loop of `preprocess_image` over `lines[:, 0]` that fills `angles`. */
  method CollectAngles(degs: seq<real>) returns (angles: seq<real>)
    ensures angles == KeptAngles(degs)
  {
    angles := [];
    var i := 0;
    while i < |degs|
      invariant 0 <= i <= |degs|
      invariant angles == KeptAngles(degs[..i])
    {
      assert degs[..i + 1][..i] == degs[..i];
      if -45.0 < degs[i] < 45.0 {
        angles := angles + [degs[i]];
      }
      i := i + 1;
    }
    assert degs[..|degs|] == degs;
  }

  // ----------------------------------------------------------------- median

  predicate Sorted(s: seq<real>) {
    forall i, j | 0 <= i < j < |s| :: s[i] <= s[j]
  }

  function Insert(x: real, s: seq<real>): (r: seq<real>)
    requires Sorted(s)
    ensures Sorted(r) && multiset(r) == multiset(s) + multiset{x}
  {
    if |s| == 0 then [x]
    else if x <= s[0] then [x] + s
    else
      assert s == [s[0]] + s[1..];
      var t := Insert(x, s[1..]);
      assert forall k | 0 <= k < |t| :: s[0] <= t[k] by {
        forall k | 0 <= k < |t| ensures s[0] <= t[k] {
          assert t[k] in multiset(t);
        }
      }
      ConsSorted(s[0], t);
      [s[0]] + t
  }

  lemma ConsSorted(x: real, t: seq<real>)
    requires Sorted(t) && forall k | 0 <= k < |t| :: x <= t[k]
    ensures Sorted([x] + t)
  {
  }

  /** The ascending order `np.median` works on. */
  function Sort(s: seq<real>): (r: seq<real>)
    ensures Sorted(r) && multiset(r) == multiset(s)
  {
    if |s| == 0 then []
    else
      assert s == [s[0]] + s[1..];
      Insert(s[0], Sort(s[1..]))
  }

  /** The head of an ascending sequence is its least element. */
  lemma SortedHeadIsLeast(a: seq<real>, x: real)
    requires Sorted(a) && x in multiset(a)
    ensures |a| > 0 && a[0] <= x
  {
    assert x in a;
  }

  lemma SortedTail(a: seq<real>)
    requires |a| > 0 && Sorted(a)
    ensures Sorted(a[1..])
  {
  }

  lemma MultisetTail(a: seq<real>)
    requires |a| > 0
    ensures multiset(a[1..]) == multiset(a) - multiset{a[0]}
  {
    assert a == [a[0]] + a[1..];
  }

  /** Two ascending sequences with the same elements are equal. */
  lemma {:induction false} SortedUnique(a: seq<real>, b: seq<real>)
    requires Sorted(a) && Sorted(b) && multiset(a) == multiset(b)
    ensures a == b
    decreases |a|
  {
    assert |multiset(a)| == |a| && |multiset(b)| == |b|;
    if |a| > 0 {
      SortedHeadsAgree(a, b);
      MultisetTail(a);
      MultisetTail(b);
      SortedTail(a);
      SortedTail(b);
      SortedUnique(a[1..], b[1..]);
      SameHeadSameTail(a, b);
    }
  }

  /** Two ascending sequences with the same elements start with the same element. */
  lemma SortedHeadsAgree(a: seq<real>, b: seq<real>)
    requires |a| > 0 && Sorted(a) && Sorted(b) && multiset(a) == multiset(b)
    ensures |b| > 0 && a[0] == b[0]
  {
    assert a[0] in multiset(a);
    SortedHeadIsLeast(b, a[0]);
    assert b[0] in multiset(b);
    SortedHeadIsLeast(a, b[0]);
  }

  lemma SameHeadSameTail(a: seq<real>, b: seq<real>)
    requires |a| > 0 && |b| > 0 && a[0] == b[0] && a[1..] == b[1..]
    ensures a == b
  {
    assert a == [a[0]] + a[1..] && b == [b[0]] + b[1..];
  }

  /** `np.median(angles)`: the middle of the sorted values, or the mean of the two middle ones. */
  function Median(xs: seq<real>): real
    requires |xs| > 0
  {
    assert |multiset(Sort(xs))| == |Sort(xs)|;
    Middle(Sort(xs))
  }

  /** The middle of a sorted sequence, or the mean of its two middle values. */
  function Middle(s: seq<real>): real
    requires |s| > 0
  {
    var n := |s|;
    if n % 2 == 1 then s[n / 2] else (s[n / 2 - 1] + s[n / 2]) / 2.0
  }

  lemma SortMembers(xs: seq<real>)
    ensures |Sort(xs)| == |xs|
    ensures forall i | 0 <= i < |Sort(xs)| :: Sort(xs)[i] in xs
  {
    var s := Sort(xs);
    assert |multiset(s)| == |s| && |multiset(xs)| == |xs|;
    forall i | 0 <= i < |s| ensures s[i] in xs {
      assert s[i] in multiset(s);
    }
  }

  /** The median lies between the least and the greatest value, and in every open interval holding them all. */
  lemma MedianBounds(xs: seq<real>, lo: real, hi: real)
    requires |xs| > 0
    ensures (forall x | x in xs :: lo <= x <= hi) ==> lo <= Median(xs) <= hi
    ensures (forall x | x in xs :: lo < x < hi) ==> lo < Median(xs) < hi
  {
    SortMembers(xs);
    var s := Sort(xs);
    var n := |s|;
    assert s[n / 2] in xs;
    if n % 2 == 0 {
      assert s[n / 2 - 1] in xs;
    }
  }

  /** An odd number of values has its median among them. */
  lemma MedianOddIsMember(xs: seq<real>)
    requires |xs| % 2 == 1
    ensures Median(xs) in xs
  {
    SortMembers(xs);
  }

  /** The median does not depend on the order in which lines were detected. */
  lemma MedianPermutation(xs: seq<real>, ys: seq<real>)
    requires |xs| > 0 && multiset(xs) == multiset(ys)
    ensures |ys| > 0 && Median(xs) == Median(ys)
  {
    assert |multiset(xs)| == |xs| && |multiset(ys)| == |ys|;
    SortedUnique(Sort(xs), Sort(ys));
  }

  // ----------------------------------------------------------- skew angle

  /**
   * The rotation `preprocess_image` applies: 0 when `HoughLines` finds nothing
   * or no angle qualifies, otherwise the median of the kept angles.
   * `lines` holds each line's `theta * 180 / pi - 90`.
   */
  method EstimateSkew(lines: Option<seq<real>>) returns (angle: real)
    ensures angle == SkewOf(lines)
    ensures lines.None? ==> angle == 0.0
    ensures lines.Some? && KeptAngles(lines.value) == [] ==> angle == 0.0
    ensures lines.Some? && KeptAngles(lines.value) != [] ==> angle == Median(KeptAngles(lines.value))
    ensures NearHorizontal(angle)
  {
    angle := 0.0;
    if lines.Some? {
      var angles := CollectAngles(lines.value);
      if angles != [] {
        KeptAnglesMembers(lines.value);
        MedianBounds(angles, -45.0, 45.0);
        angle := Median(angles);
      }
    }
  }

  /** The angle `EstimateSkew` computes, as a value. */
  function SkewOf(lines: Option<seq<real>>): (angle: real)
    ensures NearHorizontal(angle)
  {
    if lines.None? || KeptAngles(lines.value) == [] then 0.0
    else
      KeptAnglesMembers(lines.value);
      MedianBounds(KeptAngles(lines.value), -45.0, 45.0);
      Median(KeptAngles(lines.value))
  }

  // ------------------------------------------------------------ image_to_text

  /** The foreign collaborators of `image_to_text`. */
  datatype ImageEnv = ImageEnv(
    load: string -> Result<Gray>,            // cv2.imread + cvtColor; raises on a missing file
    blur: Gray -> Gray,                      // GaussianBlur (3, 3)
    lineDegrees: Gray -> Option<seq<real>>,  // Canny + HoughLines, in degrees
    rotate: (Gray, real) -> Gray,            // getRotationMatrix2D + warpAffine
    enhance: Gray -> Gray,                   // adaptiveThreshold, filter2D, convertScaleAbs
    ocr: Gray -> Result<string>)             // pytesseract, "vie+eng", psm 6

  const FormFeed: char := '\U{0C}'
  const NoTextMsg := "Không phát hiện được chữ trong ảnh."
  const ErrorPrefix := "Lỗi xử lý ảnh: "

  /** `text.replace('\x0c', '').strip()` */
  function CleanText(raw: string): (t: string)
    ensures FormFeed !in t && IsStripped(t)
  {
    ReplaceCharByEmpty(raw, FormFeed);
    StripKeepsOut(ReplaceAll(raw, [FormFeed], ""), FormFeed);
    Strip(ReplaceAll(raw, [FormFeed], ""))
  }

  /** Cleaning twice is cleaning once. */
  lemma CleanTextIdempotent(raw: string)
    ensures CleanText(CleanText(raw)) == CleanText(raw)
  {
    var t := CleanText(raw);
    ReplaceCharByEmpty(t, FormFeed);
    StripIdempotent(ReplaceAll(raw, [FormFeed], ""));
  }

  /** The record `image_to_text` builds from Tesseract's reply. */
  function ToOutcome(reply: Result<string>): (o: Outcome)
    ensures o.Success? ==> reply.Ok? && o.text == CleanText(reply.value) && o.text != []
    ensures o.Failure? ==> reply.Err? || CleanText(reply.value) == []
  {
    match reply
    case Err(m) => Failure(ErrorPrefix + m)
    case Ok(raw) => if CleanText(raw) == [] then Failure(NoTextMsg) else Success(CleanText(raw))
  }

  /** A successful result carries text with no form feed and no surrounding whitespace. */
  lemma SuccessTextIsClean(reply: Result<string>)
    requires ToOutcome(reply).Success?
    ensures FormFeed !in ToOutcome(reply).text && IsStripped(ToOutcome(reply).text)
    ensures Strip(ToOutcome(reply).text) == ToOutcome(reply).text
  {
    StripIdempotent(ReplaceAll(reply.value, [FormFeed], ""));
  }

  /** `preprocess_image`: blur, estimate the skew, rotate, enhance. */
  method PreprocessImage(img: Gray, env: ImageEnv) returns (processed: Gray, angle: real)
    ensures NearHorizontal(angle)
    ensures env.lineDegrees(env.blur(img)).None? ==> angle == 0.0
    ensures env.lineDegrees(env.blur(img)).Some? && KeptAngles(env.lineDegrees(env.blur(img)).value) == [] ==>
      angle == 0.0
    ensures env.lineDegrees(env.blur(img)).Some? && KeptAngles(env.lineDegrees(env.blur(img)).value) != [] ==>
      angle == Median(KeptAngles(env.lineDegrees(env.blur(img)).value))
    ensures processed == env.enhance(env.rotate(env.blur(img), angle))
    ensures processed == Preprocessed(img, env)
  {
    var gray := env.blur(img);
    var lines := env.lineDegrees(gray);
    angle := EstimateSkew(lines);
    gray := env.rotate(gray, angle);
    processed := env.enhance(gray);
  }

  /** The page `preprocess_image` hands to Tesseract. */
  function Preprocessed(img: Gray, env: ImageEnv): Gray {
    env.enhance(env.rotate(env.blur(img), SkewOf(env.lineDegrees(env.blur(img)))))
  }

  /** `image_to_text(image_path)`; any exception becomes a failure record. */
  method ImageToText(path: string, env: ImageEnv) returns (res: Outcome)
    ensures env.load(path).Err? ==> res == Failure(ErrorPrefix + env.load(path).msg)
    ensures env.load(path).Ok? ==> res == ToOutcome(env.ocr(Preprocessed(env.load(path).value, env)))
    ensures res.Success? ==> FormFeed !in res.text && IsStripped(res.text) && res.text != []
  {
    var loaded := env.load(path);
    if loaded.Err? {
      return Failure(ErrorPrefix + loaded.msg);
    }
    var processed, _ := PreprocessImage(loaded.value, env);
    res := ToOutcome(env.ocr(processed));
  }
}
