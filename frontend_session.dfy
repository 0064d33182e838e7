/**
 * The parts of `frontend.py` that keep state in `st.session_state` across
 * Streamlit reruns: the page-transition flags and the manual `key: value`
 * field selector.  The session state is a class holding a map from keys to
 * values; each rerun calls its methods again.
 */
module FrontendSession {
  import opened Strings
  import opened FrontendText
  import opened Wrappers
  import opened Seqs

  /** The values the model distinguishes in `st.session_state`. */
  datatype Value =
    | Text(s: string)
    | Flag(b: bool)
    | Fields(m: map<string, bool>)
    | Nothing               // Python's None
    | Other(truthy: bool)   // any other Python object, seen only through its truth value

  predicate Truthy(v: Value) {
    match v
    case Text(s) => s != []
    case Flag(b) => b
    case Fields(m) => |m| > 0
    case Nothing => false
    case Other(t) => t
  }

  const LastModeKey := "_fx_last_mode"
  const JustChangedKey := "_fx_just_changed"

  // ------------------------------------------------------- page transitions

  /** The session state after `begin_route_transition(current)`. */
  function AfterTransition(store: map<string, Value>, current: string): (s: map<string, Value>)
    ensures s.Keys == store.Keys + {LastModeKey, JustChangedKey}
    ensures s[LastModeKey] == Text(current)
    ensures s[JustChangedKey].Flag?
    ensures forall k | k in store && k != LastModeKey && k != JustChangedKey :: s[k] == store[k]
  {
    var changed := LastModeKey in store && store[LastModeKey] != Nothing && store[LastModeKey] != Text(current);
    store[JustChangedKey := Flag(changed)][LastModeKey := Text(current)]
  }

  /** The flag says "changed" exactly when an earlier mode was stored and it differs. */
  lemma TransitionFlag(store: map<string, Value>, current: string)
    ensures Truthy(AfterTransition(store, current)[JustChangedKey])
        <==> LastModeKey in store && store[LastModeKey] != Nothing && store[LastModeKey] != Text(current)
  {
  }

  /** The first transition of a session and a rerun in the same mode do not count as a change. */
  lemma TransitionStable(store: map<string, Value>, current: string)
    ensures LastModeKey !in store || store[LastModeKey] == Nothing ==> !Truthy(AfterTransition(store, current)[JustChangedKey])
    ensures !Truthy(AfterTransition(AfterTransition(store, current), current)[JustChangedKey])
  {
  }

  /** Switching from one mode to another raises the flag, and the next rerun lowers it again. */
  lemma TransitionSwitch(store: map<string, Value>, a: string, b: string)
    requires a != b
    ensures Truthy(AfterTransition(AfterTransition(store, a), b)[JustChangedKey])
    ensures !Truthy(AfterTransition(AfterTransition(AfterTransition(store, a), b), b)[JustChangedKey])
  {
  }

  /** `st.session_state.get(key, default)`, seen through its truth value. */
  function TruthyOr(store: map<string, Value>, key: string, default: bool): bool {
    if key in store then Truthy(store[key]) else default
  }

  /** The class `transition_container_start` gives the page: animated unless the flag says otherwise. */
  function PageClass(store: map<string, Value>): (c: string)
    ensures c == "fx-page enter" || c == "fx-page"
    ensures JustChangedKey !in store ==> c == "fx-page enter"
    ensures JustChangedKey in store ==> (c == "fx-page enter" <==> Truthy(store[JustChangedKey]))
  {
    if TruthyOr(store, JustChangedKey, true) then "fx-page enter" else "fx-page"
  }

  /** Whether `transition_overlay` draws the ripple: only when the flag is present and set. */
  function ShowsOverlay(store: map<string, Value>): (b: bool)
    ensures JustChangedKey !in store ==> !b
    ensures JustChangedKey in store ==> (b <==> Truthy(store[JustChangedKey]))
  {
    TruthyOr(store, JustChangedKey, false)
  }

  /**
   * Once `begin_route_transition` has run, the two defaults no longer matter:
   * the page animates and the overlay shows exactly when the mode changed.
   */
  lemma TransitionViewsAgree(store: map<string, Value>, current: string)
    ensures var s := AfterTransition(store, current);
      (PageClass(s) == "fx-page enter" <==> ShowsOverlay(s))
      && (ShowsOverlay(s) <==> LastModeKey in store && store[LastModeKey] != Nothing && store[LastModeKey] != Text(current))
  {
  }

  /** Before any transition the two defaults disagree: the page animates, the overlay stays hidden. */
  lemma FreshSessionDefaults(store: map<string, Value>)
    requires JustChangedKey !in store
    ensures PageClass(store) == "fx-page enter" && !ShowsOverlay(store)
  {
  }

  // -------------------------------------------------------- ordered fields

  /** An insertion-ordered dictionary from lines to ticks, like a Python `dict`. */
  type Ordered = seq<(string, bool)>

  function Names(om: Ordered): (ns: seq<string>)
    ensures |ns| == |om| && forall j | 0 <= j < |om| :: ns[j] == om[j].0
  {
    seq(|om|, j requires 0 <= j < |om| => om[j].0)
  }

  predicate NoDup(s: seq<string>) {
    forall i, j | 0 <= i < j < |s| :: s[i] != s[j]
  }

  function FindIndex(s: seq<string>, x: string): (i: nat)
    requires x in s
    ensures i < |s| && s[i] == x && x !in s[..i]
  {
    if s[0] == x then 0 else 1 + FindIndex(s[1..], x)
  }

  /** `d[k] = v`: an existing key keeps its place and takes the new value, a new key goes last. */
  function Put(om: Ordered, k: string, v: bool): (r: Ordered)
    ensures |r| == |om| || r == om + [(k, v)]
  {
    if k in Names(om) then om[FindIndex(Names(om), k) := (k, v)] else om + [(k, v)]
  }

  /** The loop of `manual_kv_selector_ui` that fills `selected_map`. */
  function Build(kv: seq<string>, ticks: seq<bool>): Ordered
    requires |kv| == |ticks|
    decreases |kv|
  {
    if |kv| == 0 then []
    else Put(Build(kv[..|kv| - 1], ticks[..|kv| - 1]), kv[|kv| - 1], ticks[|kv| - 1])
  }

  /** The distinct lines, each at its first occurrence. */
  function Dedup(s: seq<string>): (d: seq<string>)
    ensures NoDup(d)
    ensures forall x :: x in d <==> x in s
    decreases |s|
  {
    if |s| == 0 then []
    else
      var init := Dedup(s[..|s| - 1]);
      assert forall x :: x in s <==> x in s[..|s| - 1] || x == s[|s| - 1] by {
        assert s == s[..|s| - 1] + [s[|s| - 1]];
      }
      if s[|s| - 1] in init then init else init + [s[|s| - 1]]
  }

  /** Index of the last occurrence of `x`. */
  function LastIndex(s: seq<string>, x: string): (i: nat)
    requires x in s
    ensures i < |s| && s[i] == x && forall t | i < t < |s| :: s[t] != x
    decreases |s|
  {
    if s[|s| - 1] == x then |s| - 1
    else
      assert x in s[..|s| - 1] by {
        var t :| 0 <= t < |s| && s[t] == x;
        assert s[..|s| - 1][t] == x;
      }
      LastIndex(s[..|s| - 1], x)
  }

  /** The first occurrences come in the order of the lines. */
  lemma {:induction false} DedupKeepsFirstOccurrenceOrder(s: seq<string>, i: nat, j: nat)
    requires i < j < |Dedup(s)|
    ensures FindIndex(s, Dedup(s)[i]) < FindIndex(s, Dedup(s)[j])
    decreases |s|
  {
    var n := |s| - 1;
    var init := s[..n];
    var d0 := Dedup(init);
    var d := Dedup(s);
    FindIndexPrefix(init, s, d[i]);
    if j < |d0| {
      assert d[i] == d0[i] && d[j] == d0[j];
      DedupKeepsFirstOccurrenceOrder(init, i, j);
      FindIndexPrefix(init, s, d[j]);
    } else {
      assert d[j] == s[n] && s[n] !in init;
      assert FindIndex(s, d[j]) == n by {
        FindIndexLast(s, d[j]);
      }
    }
  }

  lemma FindIndexPrefix(init: seq<string>, s: seq<string>, x: string)
    requires |init| <= |s| && init == s[..|init|] && x in init
    ensures x in s && FindIndex(s, x) == FindIndex(init, x) < |init|
  {
    var i := FindIndex(init, x);
    assert s[..i] == init[..i];
    var k := FindIndex(s, x);
    assert k <= i;
    assert init[..k] == s[..k];
  }

  lemma FindIndexLast(s: seq<string>, x: string)
    requires |s| > 0 && s[|s| - 1] == x && x !in s[..|s| - 1]
    ensures FindIndex(s, x) == |s| - 1
  {
    assert forall t | 0 <= t < |s| - 1 :: s[..|s| - 1][t] == s[t];
  }

  lemma LastIndexInit(s: seq<string>, x: string)
    requires x in s && x != s[|s| - 1]
    ensures x in s[..|s| - 1] && LastIndex(s, x) == LastIndex(s[..|s| - 1], x)
  {
  }

  /**
   * `selected_map` has one entry per distinct kv line, in the order of first
   * occurrence, and each entry holds the tick given at the line's last occurrence.
   */
  lemma {:induction false} BuildShape(kv: seq<string>, ticks: seq<bool>)
    requires |kv| == |ticks|
    ensures Names(Build(kv, ticks)) == Dedup(kv)
    ensures forall j | 0 <= j < |Build(kv, ticks)| ::
      Build(kv, ticks)[j].0 in kv && Build(kv, ticks)[j].1 == ticks[LastIndex(kv, Build(kv, ticks)[j].0)]
    decreases |kv|
  {
    if |kv| > 0 {
      var n := |kv| - 1;
      var init, tinit := kv[..n], ticks[..n];
      var b0 := Build(init, tinit);
      BuildShape(init, tinit);
      PrefixAgrees(kv, n);
      PrefixAgrees(ticks, n);
      SnocSplit([], kv);
      var x := kv[n];
      var b := Build(kv, ticks);
      assert b == Put(b0, x, ticks[n]);
      forall y | y in init ensures y in kv {
        InConcat(init, [x], y);
      }
      if x in Names(b0) {
        PutUpdates(b0, x, ticks[n]);
        assert x in init;
        forall j | 0 <= j < |b|
          ensures b[j].0 in kv && b[j].1 == ticks[LastIndex(kv, b[j].0)]
        {
          if b0[j].0 != x {
            LastIndexInit(kv, b0[j].0);
          }
        }
      } else {
        PutAppends(b0, x, ticks[n]);
        assert x !in init;
        forall j | 0 <= j < |b|
          ensures b[j].0 in kv && b[j].1 == ticks[LastIndex(kv, b[j].0)]
        {
          if j < |b0| {
            assert b0[j].0 in Names(b0);
            LastIndexInit(kv, b0[j].0);
          }
        }
      }
    }
  }

  /** Assigning to a key already present changes its value in place. */
  lemma PutUpdates(om: Ordered, k: string, v: bool)
    requires k in Names(om) && NoDup(Names(om))
    ensures Names(Put(om, k, v)) == Names(om)
    ensures forall j | 0 <= j < |om| :: Put(om, k, v)[j] == if om[j].0 == k then (k, v) else om[j]
  {
    var p := FindIndex(Names(om), k);
    assert forall j | 0 <= j < |om| && om[j].0 == k :: j == p by {
      forall j | 0 <= j < |om| && om[j].0 == k ensures j == p {
        assert Names(om)[j] == Names(om)[p];
      }
    }
  }

  /** Assigning to a new key appends it. */
  lemma PutAppends(om: Ordered, k: string, v: bool)
    requires k !in Names(om)
    ensures Put(om, k, v) == om + [(k, v)]
    ensures Names(Put(om, k, v)) == Names(om) + [k]
  {
  }

  /** The map a Python dict denotes: a later entry for the same key wins. */
  function MapOf(om: Ordered): (m: map<string, bool>)
    ensures forall k :: k in m <==> k in Names(om)
    decreases |om|
  {
    if |om| == 0 then map[]
    else
      var init := om[..|om| - 1];
      assert forall k :: k in Names(om) <==> k in Names(init) || k == om[|om| - 1].0 by {
        assert Names(om) == Names(init) + [om[|om| - 1].0];
      }
      MapOf(init)[om[|om| - 1].0 := om[|om| - 1].1]
  }

  lemma {:induction false} MapOfValues(om: Ordered)
    requires NoDup(Names(om))
    ensures forall j | 0 <= j < |om| :: om[j].0 in MapOf(om) && MapOf(om)[om[j].0] == om[j].1
    decreases |om|
  {
    if |om| > 0 {
      var n := |om| - 1;
      var init := om[..n];
      PrefixAgrees(om, n);
      assert NoDup(Names(init)) by {
        assert forall i | 0 <= i < n :: Names(init)[i] == Names(om)[i];
      }
      MapOfValues(init);
      forall j | 0 <= j < n ensures om[j].0 != om[n].0 {
        assert Names(om)[j] != Names(om)[n];
      }
    }
  }

  /** `[ln for ln, ok in selected_map.items() if ok]` */
  function Selected(om: Ordered): seq<string>
    decreases |om|
  {
    if |om| == 0 then []
    else Selected(om[..|om| - 1]) + (if om[|om| - 1].1 then [om[|om| - 1].0] else [])
  }

  /** The reference order: the distinct lines in first-occurrence order, kept when their last tick is set. */
  function KeepTicked(names: seq<string>, kv: seq<string>, ticks: seq<bool>): (r: seq<string>)
    requires |kv| == |ticks| && forall x | x in names :: x in kv
    ensures forall x :: x in r <==> x in names && ticks[LastIndex(kv, x)]
    decreases |names|
  {
    if |names| == 0 then []
    else
      var init := names[..|names| - 1];
      var x := names[|names| - 1];
      assert names == init + [x];
      KeepTicked(init, kv, ticks) + (if ticks[LastIndex(kv, x)] then [x] else [])
  }

  lemma {:induction false} SelectedFilters(om: Ordered, kv: seq<string>, ticks: seq<bool>)
    requires |kv| == |ticks|
    requires forall j | 0 <= j < |om| :: om[j].0 in kv && om[j].1 == ticks[LastIndex(kv, om[j].0)]
    ensures forall x | x in Names(om) :: x in kv
    ensures Selected(om) == KeepTicked(Names(om), kv, ticks)
    decreases |om|
  {
    if |om| > 0 {
      var init := om[..|om| - 1];
      assert Names(om) == Names(init) + [om[|om| - 1].0];
      SelectedFilters(init, kv, ticks);
      assert Names(om)[..|om| - 1] == Names(init);
    }
  }

  lemma {:induction false} KeepTickedNoDup(names: seq<string>, kv: seq<string>, ticks: seq<bool>)
    requires |kv| == |ticks| && (forall x | x in names :: x in kv) && NoDup(names)
    ensures NoDup(KeepTicked(names, kv, ticks))
    decreases |names|
  {
    if |names| > 0 {
      var init := names[..|names| - 1];
      var x := names[|names| - 1];
      assert names == init + [x];
      assert x !in init;
      KeepTickedNoDup(init, kv, ticks);
    }
  }

  /**
   * What the selector returns, in terms of the kv lines and the ticks: the
   * distinct lines whose last checkbox is ticked, without duplicates, in the
   * order of first occurrence; the stored map has exactly the kv lines as keys.
   */
  lemma SelectionOfBuild(kv: seq<string>, ticks: seq<bool>)
    requires |kv| == |ticks|
    ensures Selected(Build(kv, ticks)) == KeepTicked(Dedup(kv), kv, ticks)
    ensures NoDup(Selected(Build(kv, ticks)))
    ensures forall x :: x in Selected(Build(kv, ticks)) <==> x in kv && ticks[LastIndex(kv, x)]
    ensures MapOf(Build(kv, ticks)).Keys == set x | x in kv
    ensures forall x | x in kv :: MapOf(Build(kv, ticks))[x] == ticks[LastIndex(kv, x)]
  {
    var b := Build(kv, ticks);
    BuildShape(kv, ticks);
    SelectedFilters(b, kv, ticks);
    KeepTickedNoDup(Dedup(kv), kv, ticks);
    MapOfValues(b);
    forall x | x in kv ensures MapOf(b)[x] == ticks[LastIndex(kv, x)] {
      var j := FindIndex(Names(b), x);
    }
  }

  // ------------------------------------------------------ the field selector

  const ChosenNoneEn := "(No field selected)"
  const ChosenNoneVi := "(Không có trường nào được chọn)"

  /** `f"{session_prefix}_manual_fields"` */
  function FieldsKey(prefix: string): string {
    prefix + "_manual_fields"
  }

  /** `d.get(k, default)` */
  function Get(m: map<string, bool>, k: string, default: bool): bool {
    if k in m then m[k] else default
  }

  /** The saved selection the loop reads: the stored dict, or every kv line at the default. */
  function SavedFields(store: map<string, Value>, key: string, kv: seq<string>, default: bool): (m: map<string, bool>)
    ensures key !in store || !store[key].Fields? ==> m.Keys == (set x | x in kv) && forall x | x in kv :: m[x] == default
    ensures key in store && store[key].Fields? ==> m == store[key].m
  {
    if key in store && store[key].Fields? then store[key].m else map x | x in kv :: default
  }

  /** The checkbox results: widget `i` is offered the saved tick of line `i`. */
  function Ticks(kv: seq<string>, saved: map<string, bool>, default: bool, checkbox: (nat, bool) -> bool): (t: seq<bool>)
    ensures |t| == |kv| && forall i | 0 <= i < |kv| :: t[i] == checkbox(i, Get(saved, kv[i], default))
  {
    seq(|kv|, i requires 0 <= i < |kv| => checkbox(i, Get(saved, kv[i], default)))
  }

  /** `filtered`: the selected lines joined by newlines, or a placeholder in the interface language. */
  function Filtered(selected: seq<string>, lang: string): (f: string)
    ensures selected != [] ==> f == Join(selected, '\n')
    ensures selected == [] ==> f == (if IsEn(lang) then ChosenNoneEn else ChosenNoneVi)
  {
    if selected != [] then Join(selected, '\n') else if IsEn(lang) then ChosenNoneEn else ChosenNoneVi
  }

  /**
   * What checkbox `i` is offered: the tick saved for its line when the
   * session holds a dict with that line, and the default otherwise.
   */
  lemma OfferedTicks(store: map<string, Value>, key: string, kv: seq<string>, default: bool,
                     checkbox: (nat, bool) -> bool)
    ensures |Ticks(kv, SavedFields(store, key, kv, default), default, checkbox)| == |kv|
    ensures forall i | 0 <= i < |kv| ::
      Ticks(kv, SavedFields(store, key, kv, default), default, checkbox)[i]
      == checkbox(i, if key in store && store[key].Fields? && kv[i] in store[key].m then store[key].m[kv[i]] else default)
  {
  }

  /**
   * The filtered text reads back as the selection: split at newlines it gives
   * the selected lines, and with nothing selected it is a single placeholder line.
   */
  lemma FilteredRoundTrip(selected: seq<string>, lang: string)
    requires forall j | 0 <= j < |selected| :: '\n' !in selected[j]
    ensures selected != [] ==> Split(Filtered(selected, lang), '\n') == selected
    ensures selected == [] ==> Split(Filtered(selected, lang), '\n') == [Filtered(selected, lang)]
    ensures selected == [] ==> Filtered(selected, lang) in {ChosenNoneEn, ChosenNoneVi}
  {
    if selected != [] {
      SplitJoin(selected, '\n');
    } else {
      var en, vi := ChosenNoneEn, ChosenNoneVi;
      assert forall t | 0 <= t < |en| :: en[t] != '\n';
      assert forall t | 0 <= t < |vi| :: vi[t] != '\n';
    }
  }

  /** The placeholders contain no `key: value` line, so an Excel export of them has no rows. */
  lemma PlaceholdersExportNoRows(lang: string)
    ensures ExcelRows(Filtered([], lang)) == []
  {
    var en, vi := ChosenNoneEn, ChosenNoneVi;
    assert forall t | 0 <= t < |en| :: en[t] != ':';
    assert forall t | 0 <= t < |vi| :: vi[t] != ':';
    ExcelRowsEmptyIff(Filtered([], lang));
  }

  /**
   * The filtered text of a non-empty selection of kv lines exports to Excel
   * as one row per selected line, in order.
   */
  lemma SelectionExportsRows(kv: seq<string>, ticks: seq<bool>, lang: string)
    requires |kv| == |ticks| && forall j | 0 <= j < |kv| :: ':' in kv[j] && '\n' !in kv[j]
    requires Selected(Build(kv, ticks)) != []
    ensures forall x | x in Selected(Build(kv, ticks)) :: ':' in x
    ensures var sel := Selected(Build(kv, ticks));
      |ExcelRows(Filtered(sel, lang))| == |sel|
      && forall j | 0 <= j < |sel| :: ExcelRows(Filtered(sel, lang))[j] == RowOf(sel[j])
  {
    var sel := Selected(Build(kv, ticks));
    SelectionOfBuild(kv, ticks);
    assert forall j | 0 <= j < |sel| :: sel[j] in kv;
    ExcelRowsOfSelection(sel);
  }

  /** What one run of the selector stores, in terms of the state before it. */
  function SelectorStore(store: map<string, Value>, raw: string, prefix: string, default: bool,
                         checkbox: (nat, bool) -> bool): map<string, Value>
  {
    var kv := SelectorLines(raw);
    var key := FieldsKey(prefix);
    store[key := Fields(MapOf(Build(kv, Ticks(kv, SavedFields(store, key, kv, default), default, checkbox))))]
  }

  /** What one run of the selector returns as `selected_lines`. */
  function SelectorChoice(store: map<string, Value>, raw: string, prefix: string, default: bool,
                          checkbox: (nat, bool) -> bool): seq<string>
  {
    var kv := SelectorLines(raw);
    Selected(Build(kv, Ticks(kv, SavedFields(store, FieldsKey(prefix), kv, default), default, checkbox)))
  }

  /** After a run, the saved selection the next run reads is the map the run stored. */
  lemma SavedAfterRun(store: map<string, Value>, raw: string, prefix: string, default: bool,
                      checkbox: (nat, bool) -> bool)
    ensures var kv := SelectorLines(raw);
      SavedFields(SelectorStore(store, raw, prefix, default, checkbox), FieldsKey(prefix), kv, default)
      == MapOf(Build(kv, Ticks(kv, SavedFields(store, FieldsKey(prefix), kv, default), default, checkbox)))
  {
  }

  /**
   * A rerun in which the user touches no checkbox (each widget returns the
   * value it is offered) stores the same selection ...
   */
  lemma SelectorRerunStable(store: map<string, Value>, raw: string, prefix: string, default: bool,
                            checkbox: (nat, bool) -> bool)
    requires forall i: nat, b: bool :: checkbox(i, b) == b
    ensures SelectorStore(SelectorStore(store, raw, prefix, default, checkbox), raw, prefix, default, checkbox)
         == SelectorStore(store, raw, prefix, default, checkbox)
  {
    var kv := SelectorLines(raw);
    var key := FieldsKey(prefix);
    var saved := SavedFields(store, key, kv, default);
    var s1 := SelectorStore(store, raw, prefix, default, checkbox);
    SavedAfterRun(store, raw, prefix, default, checkbox);
    RerunTicks(kv, saved, default, checkbox);
    assert s1[key] == Fields(MapOf(Build(kv, Ticks(kv, saved, default, checkbox))));
    MapUpdateSame(s1, key);
  }

  /** ... and returns the same lines. */
  lemma SelectorRerunSameChoice(store: map<string, Value>, raw: string, prefix: string, default: bool,
                                checkbox: (nat, bool) -> bool)
    requires forall i: nat, b: bool :: checkbox(i, b) == b
    ensures SelectorChoice(SelectorStore(store, raw, prefix, default, checkbox), raw, prefix, default, checkbox)
         == SelectorChoice(store, raw, prefix, default, checkbox)
  {
    var kv := SelectorLines(raw);
    SavedAfterRun(store, raw, prefix, default, checkbox);
    RerunTicks(kv, SavedFields(store, FieldsKey(prefix), kv, default), default, checkbox);
  }

  lemma MapUpdateTwice(m: map<string, Value>, m': map<string, Value>, k: string, v: Value)
    requires m'.Keys == m.Keys + {k} && forall j | j in m && j != k :: m'[j] == m[j]
    ensures m'[k := v] == m[k := v]
  {
  }

  lemma MapUpdateSame(m: map<string, Value>, k: string)
    requires k in m
    ensures m[k := m[k]] == m
  {
  }

  /** Feeding the stored map back in, with untouched checkboxes, reproduces the same ticks. */
  lemma RerunTicks(kv: seq<string>, saved: map<string, bool>, default: bool, checkbox: (nat, bool) -> bool)
    requires forall i: nat, b: bool :: checkbox(i, b) == b
    ensures Ticks(kv, MapOf(Build(kv, Ticks(kv, saved, default, checkbox))), default, checkbox)
         == Ticks(kv, saved, default, checkbox)
  {
    var t1 := Ticks(kv, saved, default, checkbox);
    var m1 := MapOf(Build(kv, t1));
    var t2 := Ticks(kv, m1, default, checkbox);
    SelectionOfBuild(kv, t1);
    forall i | 0 <= i < |kv| ensures t2[i] == t1[i] {
      var j := LastIndex(kv, kv[i]);
      assert kv[i] in m1 && m1[kv[i]] == t1[j];
      assert t2[i] == m1[kv[i]];
      assert kv[j] == kv[i];
      assert t1[j] == Get(saved, kv[i], default) == t1[i];
    }
  }

  /**
   * On the first run (no saved dict) with no checkbox touched, every distinct
   * kv line is selected when the default is ticked, and none otherwise.
   */
  lemma SelectorFirstRun(store: map<string, Value>, raw: string, prefix: string, default: bool,
                         checkbox: (nat, bool) -> bool)
    requires FieldsKey(prefix) !in store
    requires forall i: nat, b: bool :: checkbox(i, b) == b
    ensures SelectorChoice(store, raw, prefix, default, checkbox) == (if default then Dedup(SelectorLines(raw)) else [])
  {
    var kv := SelectorLines(raw);
    var t := Ticks(kv, SavedFields(store, FieldsKey(prefix), kv, default), default, checkbox);
    assert forall i | 0 <= i < |kv| :: t[i] == default;
    SelectionOfBuild(kv, t);
    KeepTickedConst(Dedup(kv), kv, t, default);
  }

  lemma {:induction false} KeepTickedConst(names: seq<string>, kv: seq<string>, ticks: seq<bool>, b: bool)
    requires |kv| == |ticks| && (forall x | x in names :: x in kv) && forall i | 0 <= i < |ticks| :: ticks[i] == b
    ensures KeepTicked(names, kv, ticks) == (if b then names else [])
    decreases |names|
  {
    if |names| > 0 {
      var init := names[..|names| - 1];
      assert names == init + [names[|names| - 1]];
      KeepTickedConst(init, kv, ticks, b);
    }
  }

  lemma SelectorRun(store: map<string, Value>, raw: string, prefix: string, default: bool,
                    checkbox: (nat, bool) -> bool, om: Ordered)
    requires var kv := SelectorLines(raw);
      om == Build(kv, Ticks(kv, SavedFields(store, FieldsKey(prefix), kv, default), default, checkbox))
    ensures SelectorStore(store, raw, prefix, default, checkbox) == store[FieldsKey(prefix) := Fields(MapOf(om))]
    ensures SelectorChoice(store, raw, prefix, default, checkbox) == Selected(om)
  {
  }

  /** The checkbox loop of `manual_kv_selector_ui`, filling `selected_map` line by line. */
  method CheckFields(kv: seq<string>, saved: map<string, bool>, default: bool, checkbox: (nat, bool) -> bool)
    returns (selectedMap: Ordered)
    ensures selectedMap == Build(kv, Ticks(kv, saved, default, checkbox))
  {
    ghost var ticks := Ticks(kv, saved, default, checkbox);
    selectedMap := [];
    for i := 0 to |kv|
      invariant selectedMap == Build(kv[..i], ticks[..i])
    {
      var checkedDefault := Get(saved, kv[i], default);
      var checked := checkbox(i, checkedDefault);
      assert kv[..i + 1][..i] == kv[..i] && ticks[..i + 1][..i] == ticks[..i];
      selectedMap := Put(selectedMap, kv[i], checked);
    }
    assert kv[..|kv|] == kv && ticks[..|kv|] == ticks;
  }

  /** `st.session_state`, across reruns. */
  class Session {
    var store: map<string, Value>

    constructor ()
      ensures store == map[]
    {
      store := map[];
    }

    /** `begin_route_transition(current_mode_label)` */
    method BeginRouteTransition(current: string)
      modifies this
      ensures store == AfterTransition(old(store), current)
    {
      var last := if LastModeKey in store then store[LastModeKey] else Nothing;
      store := store[JustChangedKey := Flag(last != Nothing && last != Text(current))];
      store := store[LastModeKey := Text(current)];
    }

    /** The opening tag `transition_container_start` writes. */
    method TransitionContainerStart() returns (markup: string)
      ensures markup == "<div class=\"" + PageClass(store) + "\">"
      ensures JustChangedKey !in store ==> markup == "<div class=\"fx-page enter\">"
    {
      var justChanged := if JustChangedKey in store then Truthy(store[JustChangedKey]) else true;
      var klass := if justChanged then "fx-page enter" else "fx-page";
      markup := "<div class=\"" + klass + "\">";
    }

    /** The ripple `transition_overlay` writes, if any. */
    method TransitionOverlay() returns (markup: Option<string>)
      ensures markup.Some? <==> ShowsOverlay(store)
      ensures markup.Some? ==> markup.value == "<div class=\"fx-overlay\"></div>"
    {
      if !(if JustChangedKey in store then Truthy(store[JustChangedKey]) else false) {
        return None;
      }
      markup := Some("<div class=\"fx-overlay\"></div>");
    }

    /** Lines 177-178 of `manual_kv_selector_ui`: start a fresh dict unless one is stored. */
    method EnsureFields(mapKey: string, kv: seq<string>, default: bool)
      modifies this
      ensures store.Keys == old(store).Keys + {mapKey}
      ensures forall k | k in old(store) && k != mapKey :: store[k] == old(store)[k]
      ensures store[mapKey] == Fields(SavedFields(old(store), mapKey, kv, default))
    {
      if mapKey !in store || !store[mapKey].Fields? {
        store := store[mapKey := Fields(map ln | ln in kv :: default)];
      }
    }

    /**
     * `manual_kv_selector_ui(raw_text, lang, session_prefix, default_checked)`.
     * `checkbox(i, offered)` is what widget `i` returns when offered the saved tick.
     */
    method ManualKvSelector(rawText: string, lang: string, prefix: string, default: bool,
                            checkbox: (nat, bool) -> bool)
      returns (filtered: string, selected: seq<string>)
      modifies this
      ensures store == SelectorStore(old(store), rawText, prefix, default, checkbox)
      ensures selected == SelectorChoice(old(store), rawText, prefix, default, checkbox)
      ensures filtered == Filtered(selected, lang)
    {
      var kv := SelectorLines(rawText);
      var mapKey := FieldsKey(prefix);
      ghost var before := store;
      EnsureFields(mapKey, kv, default);
      var saved := store[mapKey].m;
      ghost var ticks := Ticks(kv, saved, default, checkbox);
      var selectedMap := CheckFields(kv, saved, default, checkbox);
      MapUpdateTwice(before, store, mapKey, Fields(MapOf(selectedMap)));
      SelectorRun(before, rawText, prefix, default, checkbox, selectedMap);
      store := store[mapKey := Fields(MapOf(selectedMap))];
      selected := Selected(selectedMap);
      filtered := if selected != [] then Join(selected, '\n')
                  else if IsEn(lang) then ChosenNoneEn else ChosenNoneVi;
    }
  }
}
