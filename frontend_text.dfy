/**
 * The text logic of the Streamlit helper module (`frontend.py`): the
 * language test, the mode classification that picks the help texts, the
 * normalisation of recognised text into stripped non-empty lines, the
 * `key: value` lines, and the Excel rows of the download block.
 */
module FrontendText {
  import opened Strings
  import opened Seqs

  // --------------------------------------------------------------- language

  /** `_is_en(lang)`: the stripped, lower-cased label starts with "english". */
  predicate IsEn(lang: string) {
    StartsWith(Lower(Strip(lang)), "english")
  }

  /** Whitespace around the label does not change the language. */
  lemma IsEnIgnoresPadding(a: string, lang: string, b: string)
    requires AllSpace(a) && AllSpace(b)
    ensures IsEn(a + lang + b) <==> IsEn(lang)
  {
    StripPadded(a, lang, b);
  }

  /** Upper or lower case in the label does not change the language. */
  lemma IsEnIgnoresCase(lang: string)
    ensures IsEn(Lower(lang)) <==> IsEn(lang)
  {
    StripLower(lang);
    LowerIdempotent(Strip(lang));
  }

  /** The two sidebar choices: "English" is English, "Tiếng Việt" is not. */
  lemma IsEnSidebarChoices()
    ensures IsEn("English")
    ensures !IsEn("Tiếng Việt")
  {
    StripOfStripped("English");
    var l := Lower("English");
    assert l[0] == 'e' && l[1] == 'n' && l[2] == 'g' && l[3] == 'l' && l[4] == 'i' && l[5] == 's' && l[6] == 'h';
    assert l == "english";
    StripOfStripped("Tiếng Việt");
    assert Lower("Tiếng Việt")[0] == 't';
  }

  // ------------------------------------------------------------------ modes

  datatype Mode = Image | Pdf | Scan | Speech

  /**
   * The cascade at the top of `quick_summary` and `contextual_help`: the
   * first of 📸, 📄, 📷 occurring in the modeLabel decides, otherwise speech.
   */
  function ClassifyMode(modeLabel: string): (m: Mode)
    ensures m == Image <==> '📸' in modeLabel
    ensures m == Pdf <==> '📸' !in modeLabel && '📄' in modeLabel
    ensures m == Scan <==> '📸' !in modeLabel && '📄' !in modeLabel && '📷' in modeLabel
    ensures m == Speech <==> '📸' !in modeLabel && '📄' !in modeLabel && '📷' !in modeLabel
  {
    IsInfixChar('📸', modeLabel);
    IsInfixChar('📄', modeLabel);
    IsInfixChar('📷', modeLabel);
    if IsInfix("📸", modeLabel) then Image
    else if IsInfix("📄", modeLabel) then Pdf
    else if IsInfix("📷", modeLabel) then Scan
    else Speech
  }

  /** The English sidebar labels land in their own mode. */
  lemma EnglishModeLabels()
    ensures ClassifyMode("📸 Image") == Image
    ensures ClassifyMode("📄 PDF") == Pdf
    ensures ClassifyMode("📷 Scan") == Scan
    ensures ClassifyMode("🎤 Speech") == Speech
  {
    assert "📸 Image"[0] == '📸';
    var pdf, scan, speech := "📄 PDF", "📷 Scan", "🎤 Speech";
    assert pdf[0] == '📄' && forall i | 0 <= i < |pdf| :: pdf[i] != '📸';
    assert scan[0] == '📷' && forall i | 0 <= i < |scan| :: scan[i] != '📸' && scan[i] != '📄';
    assert forall i | 0 <= i < |speech| :: speech[i] != '📸' && speech[i] != '📄' && speech[i] != '📷';
  }

  /** The Vietnamese sidebar labels land in their own mode. */
  lemma VietnameseModeLabels()
    ensures ClassifyMode("📸 Ảnh") == Image
    ensures ClassifyMode("📷 Quét") == Scan
    ensures ClassifyMode("🎤 Giọng nói") == Speech
  {
    assert "📸 Ảnh"[0] == '📸';
    var scan, speech := "📷 Quét", "🎤 Giọng nói";
    assert scan[0] == '📷' && forall i | 0 <= i < |scan| :: scan[i] != '📸' && scan[i] != '📄';
    assert forall i | 0 <= i < |speech| :: speech[i] != '📸' && speech[i] != '📄' && speech[i] != '📷';
  }

  // ------------------------------------------------------------------ lines

  /** `[ln.strip() for ln in parts if ln.strip()]` */
  function StrippedLines(parts: seq<string>): (lines: seq<string>)
    ensures |lines| <= |parts|
    decreases |parts|
  {
    if |parts| == 0 then [] else StrippedLines(parts[..|parts| - 1]) + KeptLine(parts[|parts| - 1])
  }

  /** Every kept line is non-empty and stripped. */
  lemma {:induction false} StrippedLinesClean(parts: seq<string>)
    ensures forall j | 0 <= j < |StrippedLines(parts)| :: StrippedLines(parts)[j] != [] && IsStripped(StrippedLines(parts)[j])
    decreases |parts|
  {
    if |parts| > 0 {
      StrippedLinesClean(parts[..|parts| - 1]);
    }
  }

  /** One piece's contribution: its strip, unless that is empty. */
  function KeptLine(part: string): (kept: seq<string>)
    ensures |kept| <= 1
  {
    if Strip(part) != [] then [Strip(part)] else []
  }

  /** The comprehension works piece by piece, so it keeps the order of the pieces. */
  lemma {:induction false} StrippedLinesConcat(a: seq<string>, b: seq<string>)
    ensures StrippedLines(a + b) == StrippedLines(a) + StrippedLines(b)
    decreases |b|
  {
    if |b| == 0 {
      assert a + b == a;
    } else {
      var b', last := b[..|b| - 1], b[|b| - 1];
      StrippedLinesConcat(a, b');
      SnocSplit(a, b);
      StrippedLinesSnoc(a + b', last);
      StrippedLinesSnoc(b', last);
      ConcatAssoc(StrippedLines(a), StrippedLines(b'), KeptLine(last));
    }
  }

  lemma StrippedLinesSnoc(p: seq<string>, x: string)
    ensures StrippedLines(p + [x]) == StrippedLines(p) + KeptLine(x)
  {
    assert (p + [x])[..|p|] == p;
  }

  /** A line is kept exactly when it is the non-empty strip of some piece. */
  lemma {:induction false} StrippedLinesMembers(parts: seq<string>, x: string)
    ensures x in StrippedLines(parts) <==> x != [] && exists j | 0 <= j < |parts| :: Strip(parts[j]) == x
    decreases |parts|
  {
    if |parts| > 0 {
      var n := |parts| - 1;
      var init, last := parts[..n], parts[n];
      StrippedLinesMembers(init, x);
      PrefixAgrees(parts, n);
      SnocSplit([], parts);
      StrippedLinesSnoc(init, last);
      InConcat(StrippedLines(init), KeptLine(last), x);
      assert x in StrippedLines(parts) <==> x in StrippedLines(init) || x in KeptLine(last);
      if x in StrippedLines(parts) {
        if x in StrippedLines(init) {
          var j :| 0 <= j < |init| && Strip(init[j]) == x;
          assert Strip(parts[j]) == x;
        } else {
          assert Strip(parts[n]) == x;
        }
      }
      if x != [] && exists j | 0 <= j < |parts| :: Strip(parts[j]) == x {
        var j :| 0 <= j < |parts| && Strip(parts[j]) == x;
        if j < n {
          assert Strip(init[j]) == x;
        }
      }
    }
  }

  /** Pieces that are already stripped and non-empty come back unchanged. */
  lemma {:induction false} StrippedLinesFixed(parts: seq<string>)
    requires forall j | 0 <= j < |parts| :: parts[j] != [] && IsStripped(parts[j])
    ensures StrippedLines(parts) == parts
    decreases |parts|
  {
    if |parts| > 0 {
      var n := |parts| - 1;
      PrefixAgrees(parts, n);
      StrippedLinesFixed(parts[..n]);
      StripOfStripped(parts[n]);
      SnocSplit([], parts);
    }
  }

  /** The stripped, non-empty lines of a text (frontend.py line 173, app.py line 119). */
  function NonEmptyLines(raw: string): (lines: seq<string>)
    ensures forall j | 0 <= j < |lines| :: lines[j] != [] && IsStripped(lines[j]) && '\n' !in lines[j]
  {
    var parts := Split(raw, '\n');
    NoNewlineSurvives(parts);
    StrippedLinesClean(parts);
    StrippedLines(parts)
  }

  lemma {:induction false} NoNewlineSurvives(parts: seq<string>)
    requires forall p | p in parts :: '\n' !in p
    ensures forall j | 0 <= j < |StrippedLines(parts)| :: '\n' !in StrippedLines(parts)[j]
    decreases |parts|
  {
    if |parts| > 0 {
      var n := |parts| - 1;
      assert forall p | p in parts[..n] :: p in parts;
      NoNewlineSurvives(parts[..n]);
      StripKeepsOut(parts[n], '\n');
    }
  }

  /** The "Full Text" post-processing: the stripped non-empty lines joined by newlines. */
  function FullText(raw: string): string {
    Join(NonEmptyLines(raw), '\n')
  }

  /** Normalising already normalised text changes nothing: the same lines, the same text. */
  lemma FullTextIdempotent(raw: string)
    ensures NonEmptyLines(FullText(raw)) == NonEmptyLines(raw)
    ensures FullText(FullText(raw)) == FullText(raw)
  {
    var lines := NonEmptyLines(raw);
    if |lines| == 0 {
      assert Split("", '\n') == [""];
      assert StrippedLines([""]) == StrippedLines([]) + [] by {
        assert [""][..0] == [];
        assert Strip("") == [];
      }
    } else {
      SplitJoin(lines, '\n');
      StrippedLinesFixed(lines);
    }
  }

  /** `[ln for ln in lines if ":" in ln]` */
  function KvLines(lines: seq<string>): (kv: seq<string>)
    ensures |kv| <= |lines|
    ensures forall j | 0 <= j < |kv| :: ':' in kv[j]
    decreases |lines|
  {
    if |lines| == 0 then []
    else
      var ln := lines[|lines| - 1];
      KvLines(lines[..|lines| - 1]) + (if ':' in ln then [ln] else [])
  }

  /** A line is a `key: value` line exactly when it is a line containing ':'. */
  lemma {:induction false} KvLinesMembers(lines: seq<string>, x: string)
    ensures x in KvLines(lines) <==> x in lines && ':' in x
    decreases |lines|
  {
    if |lines| > 0 {
      var init := lines[..|lines| - 1];
      KvLinesMembers(init, x);
      assert lines == init + [lines[|lines| - 1]];
    }
  }

  /** The filter keeps the order of the lines. */
  lemma {:induction false} KvLinesConcat(a: seq<string>, b: seq<string>)
    ensures KvLines(a + b) == KvLines(a) + KvLines(b)
    decreases |b|
  {
    if |b| == 0 {
      assert a + b == a;
    } else {
      var b', last := b[..|b| - 1], b[|b| - 1];
      KvLinesConcat(a, b');
      SnocSplit(a, b);
      KvLinesSnoc(a + b', last);
      KvLinesSnoc(b', last);
      ConcatAssoc(KvLines(a), KvLines(b'), if ':' in last then [last] else []);
    }
  }

  lemma KvLinesSnoc(p: seq<string>, x: string)
    ensures KvLines(p + [x]) == KvLines(p) + if ':' in x then [x] else []
  {
    assert (p + [x])[..|p|] == p;
  }

  /** Lines that all contain ':' are all kept. */
  lemma {:induction false} KvLinesFixed(lines: seq<string>)
    requires forall j | 0 <= j < |lines| :: ':' in lines[j]
    ensures KvLines(lines) == lines
    decreases |lines|
  {
    if |lines| > 0 {
      KvLinesFixed(lines[..|lines| - 1]);
    }
  }

  /** The `key: value` lines of the selector (frontend.py lines 173-174). */
  function SelectorLines(raw: string): (kv: seq<string>)
    ensures forall j | 0 <= j < |kv| :: kv[j] != [] && IsStripped(kv[j]) && ':' in kv[j] && '\n' !in kv[j]
  {
    var lines := NonEmptyLines(raw);
    forall j | 0 <= j < |KvLines(lines)|
      ensures KvLines(lines)[j] != [] && IsStripped(KvLines(lines)[j]) && '\n' !in KvLines(lines)[j]
    {
      KvLinesMembers(lines, KvLines(lines)[j]);
    }
    KvLines(lines)
  }

  // ------------------------------------------------------------- Excel rows

  datatype Row = Row(field: string, value: string)

  /** `k, v = ln.split(":", 1)`, then `{"Field": k.strip(), "Value": v.strip()}`. */
  function RowOf(ln: string): Row
    requires ':' in ln
  {
    var kv := SplitAtFirst(ln, ':');
    Row(Strip(kv.0), Strip(kv.1))
  }

  /** The row cuts the line at its first ':': the field has none, the value may have more. */
  lemma RowOfSplitsAtFirstColon(key: string, rest: string)
    requires ':' !in key
    ensures ':' in key + ":" + rest
    ensures RowOf(key + ":" + rest) == Row(Strip(key), Strip(rest))
    ensures ':' !in RowOf(key + ":" + rest).field
    ensures IsStripped(RowOf(key + ":" + rest).field) && IsStripped(RowOf(key + ":" + rest).value)
  {
    var ln := key + ":" + rest;
    assert ln[|key|] == ':';
    var i := IndexOf(ln, ':');
    assert i == |key| by {
      assert forall t | 0 <= t < |key| :: ln[t] == key[t];
    }
    assert ln[..i] == key && ln[i + 1..] == rest;
    StripKeepsOut(key, ':');
  }

  /** The rows made from a list of lines, in order. */
  function RowsOf(lines: seq<string>): seq<Row>
    decreases |lines|
  {
    if |lines| == 0 then []
    else
      var ln := lines[|lines| - 1];
      RowsOf(lines[..|lines| - 1]) + (if ':' in ln then [RowOf(ln)] else [])
  }

  /** The rows of `download_block`'s Excel branch for `filtered_text`. */
  function ExcelRows(text: string): seq<Row> {
    RowsOf(Split(text, '\n'))
  }

  /** One row per line containing ':', made from that line, in the order of the lines. */
  lemma {:induction false} RowsOfKvLines(lines: seq<string>)
    ensures |RowsOf(lines)| == |KvLines(lines)|
    ensures forall j | 0 <= j < |RowsOf(lines)| :: RowsOf(lines)[j] == RowOf(KvLines(lines)[j])
    decreases |lines|
  {
    if |lines| > 0 {
      RowsOfKvLines(lines[..|lines| - 1]);
    }
  }

  /** There are no rows exactly when the text has no ':' at all. */
  lemma ExcelRowsEmptyIff(text: string)
    ensures ExcelRows(text) == [] <==> ':' !in text
  {
    var parts := Split(text, '\n');
    RowsOfKvLines(parts);
    JoinSplit(text, '\n');
    JoinMembers(parts, '\n', ':');
    if ':' in text {
      var j :| 0 <= j < |parts| && ':' in parts[j];
      KvLinesMembers(parts, parts[j]);
    } else if KvLines(parts) != [] {
      KvLinesMembers(parts, KvLines(parts)[0]);
    }
  }

  /** Exporting the selector's output gives one row per selected line, in order. */
  lemma ExcelRowsOfSelection(lines: seq<string>)
    requires |lines| >= 1
    requires forall j | 0 <= j < |lines| :: ':' in lines[j] && '\n' !in lines[j]
    ensures |ExcelRows(Join(lines, '\n'))| == |lines|
    ensures forall j | 0 <= j < |lines| :: ExcelRows(Join(lines, '\n'))[j] == RowOf(lines[j])
  {
    SplitJoin(lines, '\n');
    KvLinesFixed(lines);
    RowsOfKvLines(lines);
  }

  /** The loop of the Excel branch that appends to `rows`. */
  method BuildRows(text: string) returns (rows: seq<Row>)
    ensures rows == ExcelRows(text)
  {
    var parts := Split(text, '\n');
    rows := [];
    var i := 0;
    while i < |parts|
      invariant 0 <= i <= |parts|
      invariant rows == RowsOf(parts[..i])
    {
      assert parts[..i + 1][..i] == parts[..i];
      var ln := parts[i];
      if ':' in ln {
        var kv := SplitAtFirst(ln, ':');
        rows := rows + [Row(Strip(kv.0), Strip(kv.1))];
      }
      i := i + 1;
    }
    assert parts[..|parts|] == parts;
  }

  // ---------------------------------------------------------- download block

  datatype Format = Txt | Docx | Excel

  /** What the download block offers: a file to download, or the note that no row exists. */
  datatype Download =
    | TxtFile(name: string, content: string)
    | DocxFile(name: string, paragraph: string)
    | XlsxFile(name: string, rows: seq<Row>)
    | NoKvLinesNote

  /** `download_block`, with the chosen format as input and the file offered as output. */
  method DownloadBlock(filtered: string, baseName: string, fmt: Format) returns (d: Download)
    ensures fmt == Txt ==> d == TxtFile(baseName + ".txt", filtered)
    ensures fmt == Docx ==> d == DocxFile(baseName + ".docx", filtered)
    ensures fmt == Excel && ':' !in filtered ==> d == NoKvLinesNote
    ensures fmt == Excel && ':' in filtered ==> d == XlsxFile(baseName + ".xlsx", ExcelRows(filtered)) && d.rows != []
  {
    match fmt
    case Txt => d := TxtFile(baseName + ".txt", filtered);
    case Docx => d := DocxFile(baseName + ".docx", filtered);
    case Excel =>
      var rows := BuildRows(filtered);
      ExcelRowsEmptyIff(filtered);
      if rows != [] {
        d := XlsxFile(baseName + ".xlsx", rows);
      } else {
        d := NoKvLinesNote;
      }
  }
}
