/**
 * The parts of Python's `str` that the OCR application relies on, written
 * over `seq<char>`: `isspace`, `strip`, ASCII `lower`, `split` on one
 * character, `join`, `replace`, `startswith` and the `in` substring test.
 */
module Strings {

  /** Python's `str.isspace()` on one code point (bidi classes WS, B, S and category Zs). */
  predicate IsSpace(c: char) {
    ('\t' <= c <= '\r') || ('\U{1C}' <= c <= '\U{1F}') || c == ' '
    || c == '\U{85}' || c == '\U{A0}' || c == '\U{1680}'
    || ('\U{2000}' <= c <= '\U{200A}') || c == '\U{2028}' || c == '\U{2029}'
    || c == '\U{202F}' || c == '\U{205F}' || c == '\U{3000}'
  }

  predicate AllSpace(s: string) {
    forall t | 0 <= t < |s| :: IsSpace(s[t])
  }

  /** A string with no whitespace at either end, as `strip()` leaves it. */
  predicate IsStripped(r: string) {
    r == [] || (!IsSpace(r[0]) && !IsSpace(r[|r| - 1]))
  }

  // ---------------------------------------------------------------- strip

  /** Number of leading whitespace characters. */
  function LeadCount(s: string): (k: nat)
    ensures k <= |s|
    ensures forall t | 0 <= t < k :: IsSpace(s[t])
    ensures k == |s| || !IsSpace(s[k])
  {
    if |s| == 0 || !IsSpace(s[0]) then 0 else 1 + LeadCount(s[1..])
  }

  /** Number of trailing whitespace characters. */
  function TrailCount(s: string): (k: nat)
    ensures k <= |s|
    ensures forall t | |s| - k <= t < |s| :: IsSpace(s[t])
    ensures k == |s| || !IsSpace(s[|s| - 1 - k])
  {
    if |s| == 0 || !IsSpace(s[|s| - 1]) then 0 else 1 + TrailCount(s[..|s| - 1])
  }

  /** Python's `s.strip()`: the middle of `s` once whitespace is cut off both ends. */
  function Strip(s: string): (r: string)
    ensures IsStripped(r)
  {
    var rest := s[LeadCount(s)..];
    rest[..|rest| - TrailCount(rest)]
  }

  /** Where `strip()` cuts: after the leading whitespace and before the trailing whitespace. */
  lemma StripCuts(s: string)
    ensures LeadCount(s) + |Strip(s)| <= |s|
    ensures Strip(s) == s[LeadCount(s)..LeadCount(s) + |Strip(s)|]
    ensures AllSpace(s[..LeadCount(s)]) && AllSpace(s[LeadCount(s) + |Strip(s)|..])
  {
  }

  /** `strip()` is determined by its shape: whitespace, a stripped middle, whitespace. */
  lemma StripUnique(a: string, r: string, b: string)
    requires AllSpace(a) && AllSpace(b) && IsStripped(r)
    ensures Strip(a + r + b) == r
  {
    var s := a + r + b;
    var k := LeadCount(s);
    if r == [] {
      assert forall t | 0 <= t < |s| :: IsSpace(s[t]) by {
        forall t | 0 <= t < |s| ensures IsSpace(s[t]) {
          if t < |a| { assert s[t] == a[t]; } else { assert s[t] == b[t - |a|]; }
        }
      }
      assert k == |s|;
    } else {
      assert forall t | 0 <= t < |a| :: s[t] == a[t];
      assert s[|a|] == r[0];
      assert k == |a|;
      var rest := s[k..];
      assert rest == r + b;
      var j := TrailCount(rest);
      assert forall t | 0 <= t < |b| :: rest[|r| + t] == b[t];
      assert rest[|r| - 1] == r[|r| - 1];
      assert j == |b|;
      assert rest[..|rest| - j] == r;
    }
  }

  /** A string with no whitespace at its ends is its own strip. */
  lemma StripOfStripped(r: string)
    requires IsStripped(r)
    ensures Strip(r) == r
  {
    StripUnique([], r, []);
    assert [] + r + [] == r;
  }

  lemma StripIdempotent(s: string)
    ensures Strip(Strip(s)) == Strip(s)
  {
    var r := Strip(s);
    assert r == [] + r + [];
    StripUnique([], r, []);
  }

  lemma AllSpaceConcat(x: string, y: string)
    requires AllSpace(x) && AllSpace(y)
    ensures AllSpace(x + y)
  {
    assert forall t | |x| <= t < |x + y| :: (x + y)[t] == y[t - |x|];
  }

  /** Extra whitespace around a string does not change what `strip()` returns. */
  lemma StripPadded(a: string, s: string, b: string)
    requires AllSpace(a) && AllSpace(b)
    ensures Strip(a + s + b) == Strip(s)
  {
    var lead, r, trail := StripShape(s);
    AllSpaceConcat(a, lead);
    AllSpaceConcat(trail, b);
    assert a + s + b == (a + lead) + r + (trail + b);
    StripUnique(a + lead, r, trail + b);
  }

  /** Every string is whitespace, its strip, whitespace. */
  lemma StripShape(s: string) returns (lead: string, r: string, trail: string)
    ensures s == lead + r + trail && r == Strip(s)
    ensures AllSpace(lead) && AllSpace(trail) && IsStripped(r)
  {
    var k := LeadCount(s);
    r := Strip(s);
    lead, trail := s[..k], s[k + |r|..];
    assert s == s[..k] + s[k..k + |r|] + s[k + |r|..];
  }

  /** `strip()` leaves nothing exactly when the string is all whitespace. */
  lemma StripEmptyIff(s: string)
    ensures Strip(s) == [] <==> AllSpace(s)
  {
    var k := LeadCount(s);
    var r := Strip(s);
    if r == [] {
      assert k == |s|;
      assert s[..k] == s;
    } else {
      assert s[k] == r[0];
    }
  }

  /** A character absent from `s` is absent from `s.strip()`. */
  lemma StripKeepsOut(s: string, c: char)
    requires c !in s
    ensures c !in Strip(s)
  {
    var k := LeadCount(s);
    var r := Strip(s);
    forall t | 0 <= t < |r| ensures r[t] != c {
      assert r[t] == s[k + t];
    }
  }

  // ---------------------------------------------------------------- lower

  /** Python's `lower()` restricted to ASCII letters. */
  function LowerChar(c: char): char {
    if 'A' <= c <= 'Z' then (c as int + 32) as char else c
  }

  function Lower(s: string): string {
    seq(|s|, i requires 0 <= i < |s| => LowerChar(s[i]))
  }

  lemma LowerConcat(x: string, y: string)
    ensures Lower(x + y) == Lower(x) + Lower(y)
  {
    assert forall i | 0 <= i < |x + y| :: Lower(x + y)[i] == (Lower(x) + Lower(y))[i];
  }

  /** Lowering keeps whitespace where it is, so it commutes with `strip()`. */
  lemma StripLower(s: string)
    ensures Strip(Lower(s)) == Lower(Strip(s))
  {
    var a, r, b := StripShape(s);
    LowerConcat(a + r, b);
    LowerConcat(a, r);
    LowerKeepsSpace(a);
    LowerKeepsSpace(b);
    LowerKeepsStripped(r);
    StripUnique(Lower(a), Lower(r), Lower(b));
  }

  lemma LowerKeepsStripped(r: string)
    requires IsStripped(r)
    ensures IsStripped(Lower(r))
  {
    if r != [] {
      assert Lower(r)[0] == LowerChar(r[0]);
      assert Lower(r)[|r| - 1] == LowerChar(r[|r| - 1]);
    }
  }

  lemma LowerKeepsSpace(a: string)
    requires AllSpace(a)
    ensures AllSpace(Lower(a))
  {
    forall t | 0 <= t < |a| ensures IsSpace(Lower(a)[t]) {
      assert Lower(a)[t] == LowerChar(a[t]);
    }
  }

  lemma LowerIdempotent(s: string)
    ensures Lower(Lower(s)) == Lower(s)
  {
  }

  // ------------------------------------------------- prefixes and substrings

  /** Python's `s.startswith(p)`. */
  predicate StartsWith(s: string, p: string) {
    |p| <= |s| && s[..|p|] == p
  }

  /** Python's `p in s` for strings. */
  predicate IsInfix(p: string, s: string)
    decreases |s|
  {
    StartsWith(s, p) || (|s| > 0 && IsInfix(p, s[1..]))
  }

  /** `p` occurs in `s` at index `i`. */
  predicate MatchAt(s: string, i: nat, p: string) {
    i + |p| <= |s| && s[i..i + |p|] == p
  }

  lemma {:induction false} IsInfixIff(p: string, s: string)
    ensures IsInfix(p, s) <==> exists i: nat :: MatchAt(s, i, p)
    decreases |s|
  {
    if StartsWith(s, p) {
      assert MatchAt(s, 0, p);
    } else if |s| > 0 {
      IsInfixIff(p, s[1..]);
      if IsInfix(p, s[1..]) {
        var i: nat :| MatchAt(s[1..], i, p);
        MatchShift(s, i, p);
      } else {
        assert !MatchAt(s, 0, p) by {
          assert |p| <= |s| ==> s[0..|p|] == s[..|p|];
        }
        forall i: nat | MatchAt(s, i, p) ensures false {
          assert i != 0;
          MatchShift(s, i - 1, p);
        }
      }
    }
  }

  /** A pattern whose first character does not occur in `s` does not occur in `s`. */
  lemma FirstCharAbsent(p: string, s: string)
    requires |p| > 0 && p[0] !in s
    ensures !IsInfix(p, s)
  {
    IsInfixIff(p, s);
    forall i: nat | MatchAt(s, i, p) ensures false { }
  }

  /** For a single character, the substring test is plain membership. */
  lemma {:induction false} IsInfixChar(c: char, s: string)
    ensures IsInfix([c], s) <==> c in s
    decreases |s|
  {
    if |s| > 0 {
      IsInfixChar(c, s[1..]);
      assert s == [s[0]] + s[1..];
    }
  }

  // ------------------------------------------------------------- replace

  /** Python's `s.replace(pat, rep)`: left to right, non-overlapping occurrences. */
  function ReplaceAll(s: string, pat: string, rep: string): string
    requires |pat| > 0
    decreases |s|
  {
    if |s| < |pat| then s
    else if s[..|pat|] == pat then rep + ReplaceAll(s[|pat|..], pat, rep)
    else [s[0]] + ReplaceAll(s[1..], pat, rep)
  }

  /** Without an occurrence of the pattern, `replace` changes nothing. */
  lemma {:induction false} ReplaceAllAbsent(s: string, pat: string, rep: string)
    requires |pat| > 0 && !IsInfix(pat, s)
    ensures ReplaceAll(s, pat, rep) == s
    decreases |s|
  {
    if |s| >= |pat| {
      ReplaceAllAbsent(s[1..], pat, rep);
      assert [s[0]] + s[1..] == s;
    }
  }

  /** `replace(c, "")` deletes every `c` and keeps everything else in order. */
  lemma {:induction false} ReplaceCharByEmpty(s: string, c: char)
    ensures c !in ReplaceAll(s, [c], "")
    ensures |ReplaceAll(s, [c], "")| <= |s|
    ensures c !in s ==> ReplaceAll(s, [c], "") == s
    decreases |s|
  {
    if |s| >= 1 {
      ReplaceCharByEmpty(s[1..], c);
      assert s[..1] == [s[0]];
      assert [s[0]] + s[1..] == s;
    }
  }

  /** An occurrence at the front is replaced and the scan resumes after it. */
  lemma ReplaceAllAtFront(pat: string, b: string, rep: string)
    requires |pat| > 0
    ensures ReplaceAll(pat + b, pat, rep) == rep + ReplaceAll(b, pat, rep)
  {
    var s := pat + b;
    assert s[..|pat|] == pat;
    assert s[|pat|..] == b;
  }

  /** Without an occurrence at the front, the first character is copied. */
  lemma ReplaceAllStep(s: string, pat: string, rep: string)
    requires |pat| > 0 && |s| > 0 && !MatchAt(s, 0, pat)
    ensures ReplaceAll(s, pat, rep) == [s[0]] + ReplaceAll(s[1..], pat, rep)
  {
    if |s| < |pat| {
      assert ReplaceAll(s[1..], pat, rep) == s[1..];
      assert [s[0]] + s[1..] == s;
    } else {
      assert s[0..|pat|] == s[..|pat|];
    }
  }

  /** A prefix in which no occurrence starts is copied unchanged. */
  lemma {:induction false} ReplaceAllKeepsPrefix(a: string, b: string, pat: string, rep: string)
    requires |pat| > 0
    requires forall i: nat | i < |a| :: !MatchAt(a + b, i, pat)
    ensures ReplaceAll(a + b, pat, rep) == a + ReplaceAll(b, pat, rep)
    decreases |a|
  {
    if |a| == 0 {
      assert a + b == b;
    } else {
      var s := a + b;
      var a' := a[1..];
      assert s[1..] == a' + b;
      forall i: nat | i < |a'| ensures !MatchAt(a' + b, i, pat) {
        assert !MatchAt(s, i + 1, pat);
        MatchShift(s, i, pat);
      }
      ReplaceAllKeepsPrefix(a', b, pat, rep);
      assert !MatchAt(s, 0, pat);
      ReplaceAllStep(s, pat, rep);
      assert [s[0]] + a' == a;
    }
  }

  /** An occurrence in the tail of `s` is an occurrence in `s`, one place further on. */
  lemma MatchShift(s: string, i: nat, pat: string)
    requires |s| > 0
    ensures MatchAt(s[1..], i, pat) <==> MatchAt(s, i + 1, pat)
  {
    if i + 1 + |pat| <= |s| {
      assert s[1..][i..i + |pat|] == s[i + 1..i + 1 + |pat|];
    }
  }

  // ------------------------------------------------------- split and join

  /** Index of the first `c` in `s`. */
  function IndexOf(s: string, c: char): (i: nat)
    requires c in s
    ensures i < |s| && s[i] == c && c !in s[..i]
  {
    if s[0] == c then 0 else 1 + IndexOf(s[1..], c)
  }

  /** Python's `s.split(sep)` for a one-character separator. */
  function Split(s: string, sep: char): (parts: seq<string>)
    ensures |parts| >= 1
    ensures forall p | p in parts :: sep !in p
    decreases |s|
  {
    if sep !in s then [s]
    else
      var i := IndexOf(s, sep);
      [s[..i]] + Split(s[i + 1..], sep)
  }

  /** Python's `sep.join(parts)` for a one-character separator. */
  function Join(parts: seq<string>, sep: char): string
    decreases |parts|
  {
    if |parts| == 0 then ""
    else if |parts| == 1 then parts[0]
    else parts[0] + [sep] + Join(parts[1..], sep)
  }

  /** Splitting and joining again gives back the original text. */
  lemma {:induction false} JoinSplit(s: string, sep: char)
    ensures Join(Split(s, sep), sep) == s
    decreases |s|
  {
    if sep in s {
      var i := IndexOf(s, sep);
      var tail := Split(s[i + 1..], sep);
      JoinSplit(s[i + 1..], sep);
      assert Split(s, sep) == [s[..i]] + tail;
      assert ([s[..i]] + tail)[1..] == tail;
      assert s == s[..i] + [sep] + s[i + 1..];
    }
  }

  /** A character other than the separator occurs in the joined text exactly when it occurs in a piece. */
  lemma {:induction false} JoinMembers(parts: seq<string>, sep: char, c: char)
    requires c != sep
    ensures c in Join(parts, sep) <==> exists j | 0 <= j < |parts| :: c in parts[j]
    decreases |parts|
  {
    if |parts| > 1 {
      JoinMembers(parts[1..], sep, c);
      assert forall j | 1 <= j < |parts| :: parts[1..][j - 1] == parts[j];
      if c in Join(parts, sep) && c !in parts[0] {
        var k :| 0 <= k < |parts[1..]| && c in parts[1..][k];
        assert c in parts[k + 1];
      }
    }
  }

  /** Joining pieces that do not contain the separator, then splitting, gives the pieces back. */
  lemma {:induction false} SplitJoin(parts: seq<string>, sep: char)
    requires |parts| >= 1
    requires forall j | 0 <= j < |parts| :: sep !in parts[j]
    ensures Split(Join(parts, sep), sep) == parts
    decreases |parts|
  {
    if |parts| > 1 {
      var s := Join(parts, sep);
      var p := parts[0];
      var rest := Join(parts[1..], sep);
      assert s == p + [sep] + rest;
      assert s[|p|] == sep;
      assert s[..|p|] == p;
      assert IndexOf(s, sep) == |p| by {
        var i := IndexOf(s, sep);
        assert forall t | 0 <= t < |p| :: s[t] == p[t];
      }
      assert s[|p| + 1..] == rest;
      SplitJoin(parts[1..], sep);
      assert [p] + parts[1..] == parts;
    }
  }

  /** Python's `ln.split(c, 1)` on a line that contains `c`. */
  function SplitAtFirst(ln: string, c: char): (kv: (string, string))
    requires c in ln
    ensures c !in kv.0
    ensures kv.0 + [c] + kv.1 == ln
  {
    var i := IndexOf(ln, c);
    assert ln == ln[..i] + [c] + ln[i + 1..];
    (ln[..i], ln[i + 1..])
  }
}
