/**
 * Theme selection and CSS placeholder substitution (`frontend.py`): the
 * theme label becomes a key, the key selects eight CSS variable values, and
 * `inject_theme_css` replaces each `{name}` placeholder of the base style
 * sheet by its value while every other brace of the style sheet stays put.
 */
module FrontendTheme {
  import opened Wrappers
  import opened Strings

  // ------------------------------------------------------------ theme values

  /** The variable names, in the order the theme dictionaries list them. */
  const ThemeKeys: seq<string> := ["bg", "card_bg", "border", "glow", "accent", "accent_soft", "text", "sub"]

  function Keys(vars: seq<(string, string)>): (ks: seq<string>)
    ensures |ks| == |vars|
    ensures forall i | 0 <= i < |vars| :: ks[i] == vars[i].0
  {
    seq(|vars|, i requires 0 <= i < |vars| => vars[i].0)
  }

  // The values are written in pieces only to keep each literal short for the verifier.
  const NeonVars: seq<(string, string)> := [
    ("bg", "radial-gradient(1200px 800px" + " at 10% 0%, " + "#0a0f1f 0%, #04070d 45%, " + "#02040a 100%)"),
    ("card_bg", "linear-gradient(180deg, " + "rgba(14,23,43,0.75), " + "rgba(8,14,30,0.75))"),
    ("border", "1px solid rgba(0, 255, 188, " + "0.25)"),
    ("glow", "0 0 22px rgba(0,255,188,.14), " + "inset 0 0 18px rgba(0,255,188,.06)"),
    ("accent", "#00ffbc"),
    ("accent_soft", "rgba(0,255,188,.10)"),
    ("text", "#d9e7ff"),
    ("sub", "#90a9cc")]

  const GlassVars: seq<(string, string)> := [
    ("bg", "linear-gradient(135deg, " + "#0f1420 0%, #0b1220 50%, " + "#0a0f1f 100%)"),
    ("card_bg", "linear-gradient(180deg, " + "rgba(255,255,255,0.06), " + "rgba(255,255,255,0.03))"),
    ("border", "1px solid rgba(255,255,255,0.12)"),
    ("glow", "0 14px 30px rgba(0,0,0,.35), " + "inset 0 1px 0 rgba(255,255,2" + "55,.06)"),
    ("accent", "#a1c4fd"),
    ("accent_soft", "rgba(161,196,253,.12)"),
    ("text", "#e6f1ff"),
    ("sub", "#a3b5cc")]

  const MinimalVars: seq<(string, string)> := [
    ("bg", "linear-gradient(180deg, " + "#0b0f14, #0a0e13)"),
    ("card_bg", "linear-gradient(180deg, " + "rgba(255,255,255,0.05), " + "rgba(255,255,255,0.03))"),
    ("border", "1px solid rgba(255,255,255,0.08)"),
    ("glow", "0 10px 24px rgba(0,0,0,.45), " + "inset 0 1px 0 rgba(255,255,2" + "55,.04)"),
    ("accent", "#6ea8fe"),
    ("accent_soft", "rgba(110,168,254,.12)"),
    ("text", "#e8eef7"),
    ("sub", "#9aa9be")]

  /** `_css_vars_by_theme`: "neon…" and "glass…" pick their palettes, anything else the minimal one. */
  function CssVarsByTheme(theme: string): (vars: seq<(string, string)>)
    ensures StartsWith(Strip(Lower(theme)), "neon") ==> vars == NeonVars
    ensures !StartsWith(Strip(Lower(theme)), "neon") && StartsWith(Strip(Lower(theme)), "glass") ==> vars == GlassVars
    ensures !StartsWith(Strip(Lower(theme)), "neon") && !StartsWith(Strip(Lower(theme)), "glass") ==> vars == MinimalVars
  {
    var t := Strip(Lower(theme));
    if StartsWith(t, "neon") then NeonVars
    else if StartsWith(t, "glass") then GlassVars
    else MinimalVars
  }

  /** Every palette defines exactly the eight placeholders, with lower-case names and brace-free values. */
  lemma PalettesCoverThemeKeys(theme: string)
    ensures Keys(CssVarsByTheme(theme)) == ThemeKeys
    ensures SubstitutionOk(CssVarsByTheme(theme))
  {
    var vars := CssVarsByTheme(theme);
    assert Keys(vars) == ThemeKeys;
    ThemeKeysAreNames();
    NeonBraceFree();
    GlassBraceFree();
    MinimalBraceFree();
  }

  lemma ThemeKeysAreNames()
    ensures forall i | 0 <= i < |ThemeKeys| :: IsName(ThemeKeys[i])
  {
    assert IsName("bg") && IsName("card_bg") && IsName("border") && IsName("glow");
    assert IsName("accent") && IsName("accent_soft") && IsName("text") && IsName("sub");
  }

  lemma NeonBraceFree()
    ensures forall i | 0 <= i < |NeonVars| :: '{' !in NeonVars[i].1
  {
    var s0 := "radial-gradient(1200px 800px";
    assert forall t | 0 <= t < |s0| :: s0[t] != '{';
    var s1 := " at 10% 0%, ";
    assert forall t | 0 <= t < |s1| :: s1[t] != '{';
    var s2 := "#0a0f1f 0%, #04070d 45%, ";
    assert forall t | 0 <= t < |s2| :: s2[t] != '{';
    var s3 := "#02040a 100%)";
    assert forall t | 0 <= t < |s3| :: s3[t] != '{';
    var s4 := "linear-gradient(180deg, ";
    assert forall t | 0 <= t < |s4| :: s4[t] != '{';
    var s5 := "rgba(14,23,43,0.75), ";
    assert forall t | 0 <= t < |s5| :: s5[t] != '{';
    var s6 := "rgba(8,14,30,0.75))";
    assert forall t | 0 <= t < |s6| :: s6[t] != '{';
    var s7 := "1px solid rgba(0, 255, 188, ";
    assert forall t | 0 <= t < |s7| :: s7[t] != '{';
    var s8 := "0.25)";
    assert forall t | 0 <= t < |s8| :: s8[t] != '{';
    var s9 := "0 0 22px rgba(0,255,188,.14), ";
    assert forall t | 0 <= t < |s9| :: s9[t] != '{';
    var s10 := "inset 0 0 18px rgba(0,255,188,.06)";
    assert forall t | 0 <= t < |s10| :: s10[t] != '{';
    var s11 := "#00ffbc";
    assert forall t | 0 <= t < |s11| :: s11[t] != '{';
    var s12 := "rgba(0,255,188,.10)";
    assert forall t | 0 <= t < |s12| :: s12[t] != '{';
    var s13 := "#d9e7ff";
    assert forall t | 0 <= t < |s13| :: s13[t] != '{';
    var s14 := "#90a9cc";
    assert forall t | 0 <= t < |s14| :: s14[t] != '{';
  }

  lemma GlassBraceFree()
    ensures forall i | 0 <= i < |GlassVars| :: '{' !in GlassVars[i].1
  {
    var s0 := "linear-gradient(135deg, ";
    assert forall t | 0 <= t < |s0| :: s0[t] != '{';
    var s1 := "#0f1420 0%, #0b1220 50%, ";
    assert forall t | 0 <= t < |s1| :: s1[t] != '{';
    var s2 := "#0a0f1f 100%)";
    assert forall t | 0 <= t < |s2| :: s2[t] != '{';
    var s3 := "linear-gradient(180deg, ";
    assert forall t | 0 <= t < |s3| :: s3[t] != '{';
    var s4 := "rgba(255,255,255,0.06), ";
    assert forall t | 0 <= t < |s4| :: s4[t] != '{';
    var s5 := "rgba(255,255,255,0.03))";
    assert forall t | 0 <= t < |s5| :: s5[t] != '{';
    var s6 := "1px solid rgba(255,255,255,0.12)";
    assert forall t | 0 <= t < |s6| :: s6[t] != '{';
    var s7 := "0 14px 30px rgba(0,0,0,.35), ";
    assert forall t | 0 <= t < |s7| :: s7[t] != '{';
    var s8 := "inset 0 1px 0 rgba(255,255,2";
    assert forall t | 0 <= t < |s8| :: s8[t] != '{';
    var s9 := "55,.06)";
    assert forall t | 0 <= t < |s9| :: s9[t] != '{';
    var s10 := "#a1c4fd";
    assert forall t | 0 <= t < |s10| :: s10[t] != '{';
    var s11 := "rgba(161,196,253,.12)";
    assert forall t | 0 <= t < |s11| :: s11[t] != '{';
    var s12 := "#e6f1ff";
    assert forall t | 0 <= t < |s12| :: s12[t] != '{';
    var s13 := "#a3b5cc";
    assert forall t | 0 <= t < |s13| :: s13[t] != '{';
  }

  lemma MinimalBraceFree()
    ensures forall i | 0 <= i < |MinimalVars| :: '{' !in MinimalVars[i].1
  {
    var s0 := "linear-gradient(180deg, ";
    assert forall t | 0 <= t < |s0| :: s0[t] != '{';
    var s1 := "#0b0f14, #0a0e13)";
    assert forall t | 0 <= t < |s1| :: s1[t] != '{';
    var s2 := "rgba(255,255,255,0.05), ";
    assert forall t | 0 <= t < |s2| :: s2[t] != '{';
    var s3 := "rgba(255,255,255,0.03))";
    assert forall t | 0 <= t < |s3| :: s3[t] != '{';
    var s4 := "1px solid rgba(255,255,255,0.08)";
    assert forall t | 0 <= t < |s4| :: s4[t] != '{';
    var s5 := "0 10px 24px rgba(0,0,0,.45), ";
    assert forall t | 0 <= t < |s5| :: s5[t] != '{';
    var s6 := "inset 0 1px 0 rgba(255,255,2";
    assert forall t | 0 <= t < |s6| :: s6[t] != '{';
    var s7 := "55,.04)";
    assert forall t | 0 <= t < |s7| :: s7[t] != '{';
    var s8 := "#6ea8fe";
    assert forall t | 0 <= t < |s8| :: s8[t] != '{';
    var s9 := "rgba(110,168,254,.12)";
    assert forall t | 0 <= t < |s9| :: s9[t] != '{';
    var s10 := "#e8eef7";
    assert forall t | 0 <= t < |s10| :: s10[t] != '{';
    var s11 := "#9aa9be";
    assert forall t | 0 <= t < |s11| :: s11[t] != '{';
  }

  /** `theme_label.replace("✨ ", "").replace("🧊 ", "").replace("🌚 ", "").strip().lower()` */
  function ThemeKey(themeLabel: string): string {
    Lower(Strip(ReplaceAll(ReplaceAll(ReplaceAll(themeLabel, "✨ ", ""), "🧊 ", ""), "🌚 ", "")))
  }

  /**
   * The palette depends only on the theme name: surrounding whitespace and
   * upper case in the key change nothing.
   */
  lemma CssVarsIgnoresCaseAndPadding(theme: string, a: string, b: string)
    requires AllSpace(a) && AllSpace(b)
    ensures CssVarsByTheme(a + theme + b) == CssVarsByTheme(theme)
    ensures CssVarsByTheme(Lower(theme)) == CssVarsByTheme(theme)
  {
    LowerConcat(a + theme, b);
    LowerConcat(a, theme);
    LowerKeepsSpace(a);
    LowerKeepsSpace(b);
    StripPadded(Lower(a), Lower(theme), Lower(b));
    LowerIdempotent(theme);
  }

  /** The icon in front of a selector label is dropped, and the rest is stripped and lower-cased. */
  lemma IconLabelKey(icon: string, name: string)
    requires icon == "✨ " || icon == "🧊 " || icon == "🌚 "
    requires forall t | 0 <= t < |name| :: name[t] != '✨' && name[t] != '🧊' && name[t] != '🌚'
    ensures ThemeKey(icon + name) == Lower(Strip(name))
  {
    var s := icon + name;
    DropOwnIcon(icon, name);
    NoIconAfter(icon, name, "✨ ");
    NoIconAfter(icon, name, "🧊 ");
    NoIconInName(name, "✨ ");
    NoIconInName(name, "🧊 ");
    NoIconInName(name, "🌚 ");
    var r1 := ReplaceAll(s, "✨ ", "");
    var r2 := ReplaceAll(r1, "🧊 ", "");
    var r3 := ReplaceAll(r2, "🌚 ", "");
    if icon == "✨ " {
      assert r1 == name && r2 == name && r3 == name;
    } else if icon == "🧊 " {
      assert r1 == s && r2 == name && r3 == name;
    } else {
      assert r1 == s && r2 == s && r3 == name;
    }
  }

  lemma NoIconInName(name: string, icon: string)
    requires icon == "✨ " || icon == "🧊 " || icon == "🌚 "
    requires forall t | 0 <= t < |name| :: name[t] != '✨' && name[t] != '🧊' && name[t] != '🌚'
    ensures ReplaceAll(name, icon, "") == name
  {
    FirstCharAbsent(icon, name);
    ReplaceAllAbsent(name, icon, "");
  }

  lemma DropOwnIcon(icon: string, name: string)
    requires icon == "✨ " || icon == "🧊 " || icon == "🌚 "
    requires forall t | 0 <= t < |name| :: name[t] != '✨' && name[t] != '🧊' && name[t] != '🌚'
    ensures ReplaceAll(icon + name, icon, "") == name
  {
    ReplaceAllAtFront(icon, name, "");
    NoIconInName(name, icon);
  }

  /** An icon pattern other than the label's own icon finds nothing in the label. */
  lemma NoIconAfter(icon: string, name: string, other: string)
    requires icon == "✨ " || icon == "🧊 " || icon == "🌚 "
    requires other == "✨ " || other == "🧊 " || other == "🌚 "
    requires forall t | 0 <= t < |name| :: name[t] != '✨' && name[t] != '🧊' && name[t] != '🌚'
    ensures icon != other ==> ReplaceAll(icon + name, other, "") == icon + name
  {
    if icon != other {
      var s := icon + name;
      assert s[0] == icon[0] && s[1] == ' ';
      assert forall t | 2 <= t < |s| :: s[t] == name[t - 2];
      FirstCharAbsent(other, s);
      ReplaceAllAbsent(s, other, "");
    }
  }

  /** The neon label of the theme selector, "✨ Neon Cyber", picks the neon palette. */
  lemma NeonLabelPicksNeon(name: string)
    requires name == "Neon Cyber"
    ensures CssVarsByTheme(ThemeKey("✨ " + name)) == NeonVars
  {
    IconLabelKey("✨ ", name);
    KeyOf(name);
    NeonWord(name);
    LowerStartsWith(name, "neon");
  }

  /** The glass label of the theme selector, "🧊 Glass Morph", picks the glass palette. */
  lemma GlassLabelPicksGlass(name: string)
    requires name == "Glass Morph"
    ensures CssVarsByTheme(ThemeKey("🧊 " + name)) == GlassVars
  {
    IconLabelKey("🧊 ", name);
    KeyOf(name);
    GlassWord(name);
    LowerStartsWith(name, "glass");
    HeadDiffers(Lower(name), "neon");
  }

  /** The minimal label of the theme selector, "🌚 Minimal Dark", picks the minimal palette, as any unknown label does. */
  lemma MinimalLabelPicksMinimal(name: string)
    requires name == "Minimal Dark"
    ensures CssVarsByTheme(ThemeKey("🌚 " + name)) == MinimalVars
  {
    IconLabelKey("🌚 ", name);
    KeyOf(name);
    HeadDiffers(Lower(name), "neon");
    HeadDiffers(Lower(name), "glass");
  }

  lemma NeonWord(name: string)
    requires name == "Neon Cyber"
    ensures Lower(name[..4]) == "neon"
  {
    assert name[..4] == "Neon";
  }

  lemma GlassWord(name: string)
    requires name == "Glass Morph"
    ensures Lower(name[..5]) == "glass"
  {
    assert name[..5] == "Glass";
  }

  lemma HeadDiffers(s: string, p: string)
    requires |s| > 0 && |p| > 0 && s[0] != p[0]
    ensures !StartsWith(s, p)
  {
    assert |p| <= |s| ==> s[..|p|][0] == s[0];
  }

  /** A name whose first characters lower-case to `p` gives a key starting with `p`. */
  lemma LowerStartsWith(name: string, p: string)
    requires |p| <= |name| && Lower(name[..|p|]) == p
    ensures StartsWith(Lower(name), p)
  {
    assert Lower(name)[..|p|] == Lower(name[..|p|]);
  }

  /** `_css_vars_by_theme` strips and lower-cases the key again, which changes nothing. */
  lemma KeyOf(name: string)
    requires IsStripped(name)
    ensures Strip(Lower(Lower(Strip(name)))) == Lower(name)
  {
    StripOfStripped(name);
    LowerIdempotent(name);
    LowerKeepsStripped(name);
    StripOfStripped(Lower(name));
  }

  // ------------------------------------------------------------ substitution

  /** The loop of `inject_theme_css`: `css = css.replace("{" + k + "}", v)` for each pair in turn. */
  function ApplyAll(css: string, vars: seq<(string, string)>): string
    decreases |vars|
  {
    if |vars| == 0 then css
    else ApplyAll(ReplaceAll(css, Placeholder(vars[0].0), vars[0].1), vars[1..])
  }

  function Placeholder(k: string): (p: string)
    ensures |p| == |k| + 2 && p[0] == '{' && p[|k| + 1] == '}'
    ensures forall t | 0 <= t < |k| :: p[t + 1] == k[t]
  {
    "{" + k + "}"
  }

  /** Distinct names have distinct placeholders, and the name reads back from between the braces. */
  lemma PlaceholderInjective(k: string, n: string)
    ensures Placeholder(k)[1..|k| + 1] == k
    ensures Placeholder(k) == Placeholder(n) ==> k == n
  {
    assert Placeholder(k)[1..|k| + 1] == k;
    if Placeholder(k) == Placeholder(n) {
      assert Placeholder(n)[1..|n| + 1] == n;
    }
  }

  /** `inject_theme_css`, returning the `<style>` markup it hands to Streamlit; `baseCss` is `_BASE_CSS`. */
  method InjectThemeCss(themeLabel: string, baseCss: string) returns (markup: string)
    ensures markup == "<style>" + ApplyAll(baseCss, CssVarsByTheme(ThemeKey(themeLabel))) + "</style>"
  {
    var vars := CssVarsByTheme(ThemeKey(themeLabel));
    var css := baseCss;
    var i := 0;
    while i < |vars|
      invariant 0 <= i <= |vars|
      invariant ApplyAll(css, vars[i..]) == ApplyAll(baseCss, vars)
    {
      assert vars[i..][1..] == vars[i + 1..];
      css := ReplaceAll(css, "{" + vars[i].0 + "}", vars[i].1);
      i := i + 1;
    }
    markup := "<style>" + css + "</style>";
  }

  // --------------------------------------------------------------- templates

  /** A style sheet seen as literal text and `{name}` placeholders. */
  datatype Piece = Lit(text: string) | Var(name: string)

  function Text(p: Piece): string {
    match p
    case Lit(s) => s
    case Var(k) => Placeholder(k)
  }

  function Flatten(ps: seq<Piece>): string
    decreases |ps|
  {
    if |ps| == 0 then "" else Text(ps[0]) + Flatten(ps[1..])
  }

  predicate IsNameChar(c: char) {
    'a' <= c <= 'z' || c == '_'
  }

  /** A placeholder name: lower-case letters and underscores. */
  predicate IsName(k: string) {
    |k| > 0 && forall t | 0 <= t < |k| :: IsNameChar(k[t])
  }

  /** The end of the run of name characters that starts at `i`. */
  function NameEnd(s: string, i: nat): (j: nat)
    requires i <= |s|
    ensures i <= j <= |s|
    decreases |s| - i
  {
    if i == |s| || !IsNameChar(s[i]) then i else NameEnd(s, i + 1)
  }

  /** Every `{` of the text is followed, inside the text, by a run of name characters and then something else. */
  predicate ClosedBraces(s: string) {
    forall i | 0 <= i < |s| && s[i] == '{' :: NameEnd(s, i + 1) < |s|
  }

  /**
   * A template the substitution treats faithfully for the given names: its
   * literal parts close their braces and hold none of the placeholders, and
   * its placeholders carry proper names.
   */
  predicate TemplateOk(ps: seq<Piece>, names: seq<string>) {
    forall i | 0 <= i < |ps| ::
      (ps[i].Lit? ==> ClosedBraces(ps[i].text) && forall n | n in names :: !IsInfix(Placeholder(n), ps[i].text))
      && (ps[i].Var? ==> IsName(ps[i].name))
  }

  /** The substitution pairs have proper names and values without `{`. */
  predicate SubstitutionOk(vars: seq<(string, string)>) {
    forall i | 0 <= i < |vars| :: IsName(vars[i].0) && '{' !in vars[i].1
  }

  function Lookup(vars: seq<(string, string)>, k: string): Option<string>
    decreases |vars|
  {
    if |vars| == 0 then None
    else if vars[0].0 == k then Some(vars[0].1)
    else Lookup(vars[1..], k)
  }

  /** What a piece becomes: a placeholder with a value turns into that value. */
  function Resolve(p: Piece, vars: seq<(string, string)>): Piece {
    match p
    case Lit(_) => p
    case Var(k) => if Lookup(vars, k).Some? then Lit(Lookup(vars, k).value) else p
  }

  function ResolveAll(ps: seq<Piece>, vars: seq<(string, string)>): (qs: seq<Piece>)
    ensures |qs| == |ps|
    ensures forall i | 0 <= i < |ps| :: qs[i] == Resolve(ps[i], vars)
  {
    seq(|ps|, i requires 0 <= i < |ps| => Resolve(ps[i], vars))
  }

  /** The rendered style sheet: literal text verbatim, placeholders with a value replaced, others kept. */
  function Render(ps: seq<Piece>, vars: seq<(string, string)>): string {
    Flatten(ResolveAll(ps, vars))
  }

  /** A match of a placeholder that starts inside a literal part lies wholly inside it. */
  lemma MatchStaysInLit(s: string, rest: string, k: string, i: nat)
    requires ClosedBraces(s) && IsName(k) && i < |s|
    ensures MatchAt(s + rest, i, Placeholder(k)) ==> MatchAt(s, i, Placeholder(k))
  {
    var p := Placeholder(k);
    var w := s + rest;
    if MatchAt(w, i, p) {
      assert w[i..i + |p|] == p;
      assert forall t | 0 <= t < |p| :: w[i + t] == p[t];
      assert s[i] == '{' by { assert w[i] == p[0]; }
      var j := NameEnd(s, i + 1);
      assert forall t | i + 1 <= t < i + 1 + |k| && t < |s| :: s[t] == w[t] == k[t - i - 1];
      NameEndAtLeast(s, i + 1, |k|);
      assert i + 1 + |k| <= j;
      assert w[i + 1 + |k|] == '}';
      NameEndAtMost(s, i + 1, i + 1 + |k|);
      assert i + |p| <= |s|;
      assert s[i..i + |p|] == w[i..i + |p|];
    }
  }

  lemma {:induction false} NameEndAtLeast(s: string, start: nat, n: nat)
    requires start <= |s|
    requires forall t | start <= t < start + n && t < |s| :: IsNameChar(s[t])
    ensures NameEnd(s, start) >= start + n || NameEnd(s, start) == |s|
    decreases |s| - start
  {
    if start < |s| && IsNameChar(s[start]) && n > 0 {
      NameEndAtLeast(s, start + 1, n - 1);
    }
  }

  lemma {:induction false} NameEndAtMost(s: string, start: nat, p: nat)
    requires start <= p < |s| && !IsNameChar(s[p])
    ensures NameEnd(s, start) <= p
    decreases |s| - start
  {
    if start < p && IsNameChar(s[start]) {
      NameEndAtMost(s, start + 1, p);
    }
  }

  /** A match of one placeholder at the start of another dictates the same name. */
  lemma MatchInPlaceholder(k': string, rest: string, k: string, i: nat)
    requires IsName(k') && IsName(k) && i < |k'| + 2
    ensures MatchAt(Placeholder(k') + rest, i, Placeholder(k)) ==> i == 0 && k' == k
  {
    var p, q := Placeholder(k), Placeholder(k');
    var w := q + rest;
    assert forall t | 1 <= t < |q| :: q[t] != '{';
    if MatchAt(w, i, p) {
      assert w[i..i + |p|] == p;
      assert w[i] == '{';
      assert i == 0;
      assert forall t | 0 <= t < |p| && t < |q| :: p[t] == w[t] == q[t];
      assert forall t | 1 <= t <= |k'| :: IsNameChar(q[t]);
      assert forall t | 1 <= t <= |k| :: IsNameChar(p[t]);
      assert |k| == |k'|;
      assert forall t | 0 <= t < |k| :: k[t] == w[t + 1] == k'[t];
    }
  }

  function FillAll(ps: seq<Piece>, k: string, v: string): (qs: seq<Piece>)
    ensures |qs| == |ps|
    ensures forall i | 0 <= i < |ps| :: qs[i] == (if ps[i] == Var(k) then Lit(v) else ps[i])
    decreases |ps|
  {
    if |ps| == 0 then [] else [if ps[0] == Var(k) then Lit(v) else ps[0]] + FillAll(ps[1..], k, v)
  }

  /** One `replace` of a placeholder turns exactly its occurrences in the template into the value. */
  lemma {:induction false} ReplaceOne(ps: seq<Piece>, names: seq<string>, k: string, v: string)
    requires TemplateOk(ps, names) && k in names && IsName(k)
    ensures ReplaceAll(Flatten(ps), Placeholder(k), v) == Flatten(FillAll(ps, k, v))
    decreases |ps|
  {
    var pat := Placeholder(k);
    if |ps| > 0 {
      var rest := Flatten(ps[1..]);
      assert TemplateOk(ps[1..], names) by {
        assert forall i | 1 <= i < |ps| :: ps[1..][i - 1] == ps[i];
      }
      ReplaceOne(ps[1..], names, k, v);
      assert FillAll(ps, k, v)[1..] == FillAll(ps[1..], k, v);
      match ps[0]
      case Lit(s) =>
        IsInfixIff(pat, s);
        forall i: nat | i < |s| ensures !MatchAt(s + rest, i, pat) {
          MatchStaysInLit(s, rest, k, i);
        }
        ReplaceAllKeepsPrefix(s, rest, pat, v);
      case Var(k') =>
        if k' == k {
          ReplaceAllAtFront(pat, rest, v);
        } else {
          var q := Placeholder(k');
          forall i: nat | i < |q| ensures !MatchAt(q + rest, i, pat) {
            MatchInPlaceholder(k', rest, k, i);
          }
          ReplaceAllKeepsPrefix(q, rest, pat, v);
        }
    }
  }

  /** Filling in a brace-free value keeps the template well formed. */
  lemma FillKeepsTemplate(ps: seq<Piece>, names: seq<string>, k: string, v: string)
    requires TemplateOk(ps, names) && '{' !in v
    ensures TemplateOk(FillAll(ps, k, v), names)
  {
    var qs := FillAll(ps, k, v);
    forall i, n | 0 <= i < |qs| && qs[i] == Lit(v) && n in names ensures !IsInfix(Placeholder(n), v) {
      FirstCharAbsent(Placeholder(n), v);
    }
  }

  /**
   * `inject_theme_css` on a well-formed template renders it: literal text is
   * left as it is, every placeholder named in the pairs becomes its value and
   * every other placeholder stays.
   */
  lemma {:induction false} ApplyAllRenders(ps: seq<Piece>, vars: seq<(string, string)>)
    requires SubstitutionOk(vars) && TemplateOk(ps, Keys(vars))
    ensures ApplyAll(Flatten(ps), vars) == Render(ps, vars)
    decreases |vars|
  {
    if |vars| == 0 {
      assert ResolveAll(ps, vars) == ps;
    } else {
      var k, v := vars[0].0, vars[0].1;
      ReplaceOne(ps, Keys(vars), k, v);
      var qs := FillAll(ps, k, v);
      FillKeepsTemplate(ps, Keys(vars), k, v);
      var tail := vars[1..];
      assert TemplateOk(qs, Keys(tail)) by {
        assert forall n | n in Keys(tail) :: n in Keys(vars);
      }
      assert SubstitutionOk(tail) by {
        assert forall i | 0 <= i < |tail| :: tail[i] == vars[i + 1];
      }
      ApplyAllRenders(qs, tail);
      assert ResolveAll(qs, tail) == ResolveAll(ps, vars);
    }
  }

  /** The theme block of the base style sheet, `:root { --fx-bg: {bg}; … }`. */
  const ThemeBlock: seq<Piece> := [
    Lit(":root {\n  --fx-bg: "), Var("bg"),
    Lit(";\n  --fx-card-bg: "), Var("card_bg"),
    Lit(";\n  --fx-border: "), Var("border"),
    Lit(";\n  --fx-glow: "), Var("glow"),
    Lit(";\n  --fx-accent: "), Var("accent"),
    Lit(";\n  --fx-accent-soft: "), Var("accent_soft"),
    Lit(";\n  --fx-text: "), Var("text"),
    Lit(";\n  --fx-sub: "), Var("sub"),
    Lit(";\n}")]

  /** Every `{` of the text is directly followed by something that cannot start a name, as in CSS blocks. */
  predicate BracesOpenBlocks(s: string) {
    forall i | 0 <= i < |s| && s[i] == '{' :: i + 1 < |s| && !IsNameChar(s[i + 1])
  }

  /** Text whose braces open CSS blocks closes its braces and holds no placeholder. */
  lemma BlockBracesAreLiteral(s: string, names: seq<string>)
    requires BracesOpenBlocks(s) && forall n | n in names :: IsName(n)
    ensures ClosedBraces(s) && forall n | n in names :: !IsInfix(Placeholder(n), s)
  {
    forall n | n in names ensures !IsInfix(Placeholder(n), s) {
      var p := Placeholder(n);
      IsInfixIff(p, s);
      forall i: nat | i + |p| <= |s| ensures !MatchAt(s, i, p) {
        assert s[i..i + |p|][0] == s[i] && s[i..i + |p|][1] == s[i + 1];
      }
    }
  }

  /** The opening `:root {` of the theme block has one brace, followed by a newline. */
  lemma ThemeBlockOpening(open: string)
    requires open == ":root {\n  --fx-bg: "
    ensures BracesOpenBlocks(open)
  {
    assert open[6] == '{' && open[7] == '\n';
    assert forall t | 0 <= t < |open| && t != 6 :: open[t] != '{';
  }

  /** The other literal parts of the theme block have no brace until the final `}`. */
  lemma ThemeBlockDeclarations(i: nat)
    requires 1 <= i <= 8
    ensures ThemeBlock[2 * i].Lit? && '{' !in ThemeBlock[2 * i].text
  {
    var s := ThemeBlock[2 * i].text;
    assert forall t | 0 <= t < |s| :: s[t] != '{';
  }

  lemma ThemeBlockLiterals()
    ensures forall i | 0 <= i < |ThemeBlock| && ThemeBlock[i].Lit? :: BracesOpenBlocks(ThemeBlock[i].text)
  {
    ThemeBlockOpening(ThemeBlock[0].text);
    forall j | 1 <= j <= 8 ensures BracesOpenBlocks(ThemeBlock[2 * j].text) {
      ThemeBlockDeclarations(j);
    }
    forall i | 0 <= i < |ThemeBlock| && ThemeBlock[i].Lit? ensures BracesOpenBlocks(ThemeBlock[i].text) {
      assert i % 2 == 0;
      assert i == 0 || i == 2 * (i / 2);
    }
  }

  lemma ThemeBlockVars()
    ensures forall i | 0 <= i < |ThemeBlock| && ThemeBlock[i].Var? :: IsName(ThemeBlock[i].name)
  {
    ThemeKeysAreNames();
    forall i | 0 <= i < |ThemeBlock| && ThemeBlock[i].Var? ensures ThemeBlock[i].name == ThemeKeys[i / 2] {
      assert i % 2 == 1;
    }
  }

  /** CSS-only literal parts and proper placeholder names make a template for any proper names. */
  lemma BlocksAreTemplate(ps: seq<Piece>, names: seq<string>)
    requires forall i | 0 <= i < |ps| && ps[i].Lit? :: BracesOpenBlocks(ps[i].text)
    requires forall i | 0 <= i < |ps| && ps[i].Var? :: IsName(ps[i].name)
    requires forall n | n in names :: IsName(n)
    ensures TemplateOk(ps, names)
  {
    forall i | 0 <= i < |ps| && ps[i].Lit?
      ensures ClosedBraces(ps[i].text) && forall n | n in names :: !IsInfix(Placeholder(n), ps[i].text)
    {
      BlockBracesAreLiteral(ps[i].text, names);
    }
  }

  /** The theme block is a template for the theme placeholders: CSS braces and `{name}` placeholders only. */
  lemma ThemeBlockIsTemplate()
    ensures TemplateOk(ThemeBlock, ThemeKeys)
  {
    ThemeKeysAreNames();
    ThemeBlockLiterals();
    ThemeBlockVars();
    BlocksAreTemplate(ThemeBlock, ThemeKeys);
  }

  /** Injecting a theme into the theme block gives each `--fx-*` variable its palette value. */
  lemma ThemeBlockRendered(themeLabel: string)
    ensures ApplyAll(Flatten(ThemeBlock), CssVarsByTheme(ThemeKey(themeLabel)))
         == Render(ThemeBlock, CssVarsByTheme(ThemeKey(themeLabel)))
  {
    PalettesCoverThemeKeys(ThemeKey(themeLabel));
    ThemeBlockIsTemplate();
    ApplyAllRenders(ThemeBlock, CssVarsByTheme(ThemeKey(themeLabel)));
  }
}
