/**
 * Placeholder substitution inside one paragraph, for presentations and for word-processing
 * documents.
 *
 * The paragraph's text is the concatenation of its runs.  A literal pass replaces every
 * `{{column}}` of the mapping; an expression pass then evaluates the remaining placeholders.
 * When neither pass reports a change the paragraph keeps its runs.  Otherwise it is collapsed
 * to one run holding the whole new text: a presentation paragraph gets a fresh run carrying the
 * first run's six basic font attributes, a document paragraph keeps its first run (and with it
 * all of that run's formatting).
 */
module Paragraphs {
  import opened Base
  import opened Strings
  import opened Tokens

  /**
   * Character formatting of a run.  The six basic attributes are optional, as in the office
   * libraries (absent means inherited); `other` stands for every further run property.
   */
  datatype Style = Style(
    size: Option<int>,
    bold: Option<bool>,
    italic: Option<bool>,
    name: Option<string>,
    underline: Option<string>,
    color: Option<string>,
    other: map<string, string>)

  /** A run of uniformly formatted text. */
  datatype Run = Run(text: string, style: Style)

  /** A paragraph of a presentation or a document; its runs are replaced in place. */
  class Paragraph {
    var runs: seq<Run>

    constructor (runs: seq<Run>)
      ensures this.runs == runs
    {
      this.runs := runs;
    }
  }

  /** `"".join(run.text for run in runs)` */
  function Text(runs: seq<Run>): string
  {
    if runs == [] then "" else Text(runs[..|runs| - 1]) + runs[|runs| - 1].text
  }

  /** The joined text of two lists of runs one after the other is the two joined texts in order. */
  lemma {:induction false} TextConcat(a: seq<Run>, b: seq<Run>)
    ensures Text(a + b) == Text(a) + Text(b)
    decreases |b|
  {
    if b == [] {
      assert a + b == a;
    } else {
      var n := |b| - 1;
      assert (a + b)[..|a + b| - 1] == a + b[..n];
      TextConcat(a, b[..n]);
    }
  }

  /** One run's joined text is its own text, and no runs join to "". */
  lemma TextSingle(r: Run)
    ensures Text([r]) == r.text
    ensures Text([]) == ""
  {
    assert [r][..0] == [];
  }

  lemma {:induction false} TextNonEmpty(runs: seq<Run>)
    requires Text(runs) != ""
    ensures runs != []
  {
  }

  // ---------------------------------------------------------------------
  // The literal mapping
  // ---------------------------------------------------------------------

  /**
   * A Python dict from placeholder to value: its pairs in insertion order, each key once (see
   * `UniqueKeys`).
   */
  type Mapping = seq<(string, string)>

  predicate UniqueKeys(m: Mapping)
  {
    forall i, j :: 0 <= i < j < |m| ==> m[i].0 != m[j].0
  }

  /** Where the dict holds `key`, if it does. */
  function KeyIndex(m: Mapping, key: string): (r: Option<nat>)
    ensures r.Some? ==> r.value < |m| && m[r.value].0 == key
    ensures r.None? ==> forall i :: 0 <= i < |m| ==> m[i].0 != key
  {
    if m == [] then None
    else if m[|m| - 1].0 == key then Some(|m| - 1)
    else
      var init := m[..|m| - 1];
      assert forall i :: 0 <= i < |init| ==> init[i] == m[i];
      KeyIndex(init, key)
  }

  /** `d[key] = val`: a key already held keeps its place and takes the new value; a new key goes last. */
  function Put(m: Mapping, key: string, val: string): Mapping
  {
    match KeyIndex(m, key)
    case Some(i) => m[i := (key, val)]
    case None => m + [(key, val)]
  }

  /**
   * Assigning to a key of a dict: the key then holds the new value, every other pair is kept and
   * nothing else is added, keys stay unique, and the keys already there keep their places.
   */
  lemma PutSpec(m: Mapping, key: string, val: string)
    requires UniqueKeys(m)
    ensures var r := Put(m, key, val);
      (key, val) in r
      && (forall e :: e in r ==> e == (key, val) || (e in m && e.0 != key))
      && (forall e :: e in m && e.0 != key ==> e in r)
      && UniqueKeys(r)
      && |m| <= |r| && (forall i :: 0 <= i < |m| ==> r[i].0 == m[i].0)
  {
    var r := Put(m, key, val);
    match KeyIndex(m, key)
    case Some(i) =>
      assert r[i] == (key, val);
      forall e | e in r ensures e == (key, val) || (e in m && e.0 != key) {
        var j :| 0 <= j < |r| && r[j] == e;
        if j != i { assert e == m[j] && m[j].0 != m[i].0; }
      }
      forall e | e in m && e.0 != key ensures e in r {
        var j :| 0 <= j < |m| && m[j] == e;
        assert r[j] == e;
      }
    case None =>
      assert r[|m|] == (key, val);
      forall e | e in m ensures e in r {
        var j :| 0 <= j < |m| && m[j] == e;
        assert r[j] == e;
      }
  }

  predicate IsTemplateColumn(col: string)
  {
    Upper(col) == "TEMPLATE"
  }

  /**
   * The mapping built for a row: `mapping[_token(k)] = v` for each cell `(k, v)` in order, except
   * TEMPLATE columns.  A repeated column name updates the entry of its first cell.
   */
  function MappingOf(row: Row): (m: Mapping)
    ensures |m| <= |row|
  {
    if row == [] then []
    else
      var init := row[..|row| - 1];
      var (k, v) := row[|row| - 1];
      if IsTemplateColumn(k) then MappingOf(init)
      else
        var r := Put(MappingOf(init), MakeToken(k), v);
        assert |r| <= |MappingOf(init)| + 1;
        r
  }

  /** The mapping-building loop of the rendering step, a dict assignment per cell. */
  method BuildMapping(row: Row) returns (m: Mapping)
    ensures m == MappingOf(row)
  {
    m := [];
    for i := 0 to |row|
      invariant m == MappingOf(row[..i])
    {
      assert row[..i + 1][..i] == row[..i];
      var (k, v) := row[i];
      if !IsTemplateColumn(k) {
        var t := MakeToken(k);
        var at := KeyIndex(m, t);
        if at.Some? {
          m := m[at.value := (t, v)];
        } else {
          m := m + [(t, v)];
        }
      }
    }
    assert row[..|row|] == row;
  }

  /** The mapping holds each placeholder once, as a dict does. */
  lemma {:induction false} MappingUniqueKeys(row: Row)
    ensures UniqueKeys(MappingOf(row))
  {
    if row != [] {
      var init := row[..|row| - 1];
      MappingUniqueKeys(init);
      var (k, v) := row[|row| - 1];
      if !IsTemplateColumn(k) {
        PutSpec(MappingOf(init), MakeToken(k), v);
      }
    }
  }

  /** Distinct column names have distinct placeholders. */
  lemma MakeTokenInjective(a: string, b: string)
    requires MakeToken(a) == MakeToken(b)
    ensures a == b
  {
    assert |a| == |b|;
    assert a == MakeToken(a)[2..|a| + 2];
  }

  /** A cell of another column leaves the lookup of `col` as it was. */
  lemma LookupOther(row: Row, col: string)
    requires row != [] && row[|row| - 1].0 != col
    ensures Lookup(row, col) == Lookup(row[..|row| - 1], col)
  {
  }

  /**
   * Every pair of the mapping is the placeholder of a non-TEMPLATE column with that column's
   * value, the value of its last cell as `to_dict()` keeps it.
   */
  lemma {:induction false} MappingEntries(row: Row)
    ensures forall e :: e in MappingOf(row) ==>
      exists k :: 0 <= k < |row| && !IsTemplateColumn(row[k].0) && e == (MakeToken(row[k].0), Lookup(row, row[k].0))
  {
    if row != [] {
      var init := row[..|row| - 1];
      var (c, v) := row[|row| - 1];
      MappingEntries(init);
      MappingUniqueKeys(init);
      if !IsTemplateColumn(c) {
        PutSpec(MappingOf(init), MakeToken(c), v);
      }
      forall e | e in MappingOf(row)
        ensures exists k :: 0 <= k < |row| && !IsTemplateColumn(row[k].0) && e == (MakeToken(row[k].0), Lookup(row, row[k].0))
      {
        if !IsTemplateColumn(c) && e == (MakeToken(c), v) {
          assert e == (MakeToken(row[|row| - 1].0), Lookup(row, row[|row| - 1].0));
        } else {
          assert e in MappingOf(init) && (IsTemplateColumn(c) || e.0 != MakeToken(c));
          var k :| 0 <= k < |init| && !IsTemplateColumn(init[k].0) && e == (MakeToken(init[k].0), Lookup(init, init[k].0));
          assert row[k] == init[k];
          LookupOther(row, init[k].0);
        }
      }
    }
  }

  /** Conversely every non-TEMPLATE column has its placeholder in the mapping, with the column's value. */
  lemma {:induction false} MappingComplete(row: Row, k: nat)
    requires k < |row| && !IsTemplateColumn(row[k].0)
    ensures (MakeToken(row[k].0), Lookup(row, row[k].0)) in MappingOf(row)
    decreases |row|
  {
    var init := row[..|row| - 1];
    var (c, v) := row[|row| - 1];
    MappingUniqueKeys(init);
    if c == row[k].0 {
      PutSpec(MappingOf(init), MakeToken(c), v);
    } else {
      assert k < |row| - 1 && init[k] == row[k];
      MappingComplete(init, k);
      LookupOther(row, row[k].0);
      if !IsTemplateColumn(c) {
        PutSpec(MappingOf(init), MakeToken(c), v);
        if MakeToken(row[k].0) == MakeToken(c) {
          MakeTokenInjective(row[k].0, c);
        }
      }
    }
  }

  /**
   * A placeholder keeps the place it was first inserted at: the mapping built from the first `n`
   * cells has its placeholders at the start of the full mapping, in the same order.
   */
  lemma {:induction false} MappingPrefix(row: Row, n: nat)
    requires n <= |row|
    ensures var p, m := MappingOf(row[..n]), MappingOf(row);
      |p| <= |m| && forall i :: 0 <= i < |p| ==> m[i].0 == p[i].0
    decreases |row|
  {
    if n < |row| {
      var init := row[..|row| - 1];
      assert init[..n] == row[..n];
      MappingPrefix(init, n);
      var (c, v) := row[|row| - 1];
      if !IsTemplateColumn(c) {
        MappingUniqueKeys(init);
        PutSpec(MappingOf(init), MakeToken(c), v);
      }
    } else {
      assert row[..n] == row;
    }
  }

  /** Two cells named `A`: one placeholder `{{A}}`, holding the second cell's value. */
  lemma MappingRepeatedColumn()
    ensures MappingOf([("A", "1"), ("A", "2")]) == [("{{A}}", "2")]
  {
    var row: Row := [("A", "1"), ("A", "2")];
    var t := MakeToken("A");
    assert t == "{{A}}";
    assert Upper("A") == "A";
    assert row[..1] == [("A", "1")] && row[..1][..0] == [];
    assert MappingOf([]) == [];
    assert KeyIndex([], t) == None;
    assert MappingOf(row[..1]) == Put([], t, "1") == [(t, "1")];
    assert KeyIndex([(t, "1")], t) == Some(0);
  }

  /** Every placeholder of the mapping holds the opening delimiter. */
  lemma {:induction false} MappingTokensOpen(row: Row)
    ensures forall e :: e in MappingOf(row) ==> Contains(e.0, TokenPrefix)
  {
    MappingEntries(row);
    forall e | e in MappingOf(row) ensures Contains(e.0, TokenPrefix) {
      var k :| 0 <= k < |row| && e == (MakeToken(row[k].0), Lookup(row, row[k].0));
      MakeTokenHasOpen(row[k].0);
    }
  }

  // ---------------------------------------------------------------------
  // The two passes over a paragraph's text
  // ---------------------------------------------------------------------

  /**
   * The literal pass: for each mapping pair in order, when the placeholder occurs in the text so
   * far, every occurrence is replaced and the text counts as changed.
   */
  function FastPass(m: Mapping, text: string): (string, bool)
  {
    if m == [] then (text, false)
    else
      var (t, c) := FastPass(m[..|m| - 1], text);
      var (tok, val) := m[|m| - 1];
      if Contains(t, tok) then (ReplaceAll(t, tok, val), true) else (t, c)
  }

  /** Both passes: the new text and whether the paragraph counts as changed. */
  function Substitute(m: Mapping, row: Row, fmt: Formatters, text: string): (string, bool)
  {
    var (fast, c) := FastPass(m, text);
    var expr := ExprPass(fast, row, fmt);
    (expr, c || expr != fast)
  }

  /** The two passes as the replacers run them. */
  method SubstituteText(m: Mapping, row: Row, fmt: Formatters, text: string) returns (replaced: string, changed: bool)
    ensures (replaced, changed) == Substitute(m, row, fmt, text)
  {
    replaced := text;
    changed := false;
    for i := 0 to |m|
      invariant (replaced, changed) == FastPass(m[..i], text)
    {
      assert m[..i + 1][..i] == m[..i];
      var (tok, val) := m[i];
      if Contains(replaced, tok) {
        replaced := ReplaceAll(replaced, tok, val);
        changed := true;
      }
    }
    assert m[..|m|] == m;
    var newText := ExprPass(replaced, row, fmt);
    if newText != replaced {
      replaced := newText;
      changed := true;
    }
  }

  /** A literal pass over text without `{{`, with placeholders that all hold `{{`, finds nothing. */
  lemma {:induction false} FastPassNoOpen(m: Mapping, text: string)
    requires forall e :: e in m ==> Contains(e.0, TokenPrefix)
    requires !Contains(text, TokenPrefix)
    ensures FastPass(m, text) == (text, false)
  {
    if m != [] {
      var init := m[..|m| - 1];
      assert forall e :: e in init ==> e in m;
      FastPassNoOpen(init, text);
      var tok := m[|m| - 1].0;
      assert m[|m| - 1] in m;
      if Contains(text, tok) {
        ContainsTransitive(text, tok, TokenPrefix);
      }
    }
  }

  /** Whether the `k`-th placeholder occurs in the text the earlier placeholders left. */
  predicate HitAt(m: Mapping, text: string, k: nat)
    requires k < |m|
  {
    Contains(FastPass(m[..k], text).0, m[k].0)
  }

  /** A reported change has a placeholder that occurred. */
  lemma {:induction false} FastPassChangedHit(m: Mapping, text: string) returns (k: nat)
    requires FastPass(m, text).1
    ensures k < |m| && HitAt(m, text, k)
    decreases |m|
  {
    var n := |m| - 1;
    var init := m[..n];
    var t := FastPass(init, text).0;
    if Contains(t, m[n].0) {
      k := n;
    } else {
      k := FastPassChangedHit(init, text);
      assert init[..k] == m[..k] && init[k] == m[k];
    }
  }

  /** A placeholder that occurred makes the pass report a change. */
  lemma {:induction false} FastPassHitChanged(m: Mapping, text: string, k: nat)
    requires k < |m| && HitAt(m, text, k)
    ensures FastPass(m, text).1
    decreases |m|
  {
    var n := |m| - 1;
    var init := m[..n];
    if k < n {
      assert init[..k] == m[..k] && init[k] == m[k];
      FastPassHitChanged(init, text, k);
    }
  }

  /** The literal pass reports a change precisely when one of the placeholders occurred along the way. */
  lemma {:induction false} FastPassChanged(m: Mapping, text: string)
    ensures FastPass(m, text).1 <==> exists k :: 0 <= k < |m| && HitAt(m, text, k)
  {
    if FastPass(m, text).1 {
      var k := FastPassChangedHit(m, text);
    }
    if exists k :: 0 <= k < |m| && HitAt(m, text, k) {
      var k :| 0 <= k < |m| && HitAt(m, text, k);
      FastPassHitChanged(m, text, k);
    }
  }

  /** Text without `{{` comes through both passes unchanged and not marked as changed. */
  lemma {:induction false} SubstituteNoOpen(row: Row, fmt: Formatters, text: string)
    requires !Contains(text, TokenPrefix)
    ensures Substitute(MappingOf(row), row, fmt, text) == (text, false)
  {
    MappingTokensOpen(row);
    FastPassNoOpen(MappingOf(row), text);
    ExprPassNoOpen(text, row, fmt);
  }

  // ---------------------------------------------------------------------
  // Collapsing the runs
  // ---------------------------------------------------------------------

  datatype Flavor = Presentation | Document

  /** The style of the single run left after a change. */
  function CollapsedStyle(fl: Flavor, first: Style): Style
  {
    match fl
    case Presentation => Style(first.size, first.bold, first.italic, first.name, first.underline, first.color, map[])
    case Document => first
  }

  /** The runs a paragraph holds after the replacer ran on it. */
  function NewRuns(fl: Flavor, runs: seq<Run>, m: Mapping, row: Row, fmt: Formatters): seq<Run>
  {
    var text := Text(runs);
    if text == "" then runs
    else
      var (replaced, changed) := Substitute(m, row, fmt, text);
      if !changed then runs else [Run(replaced, CollapsedStyle(fl, runs[0].style))]
  }

  /** A paragraph with no text, or whose passes report no change, keeps exactly its runs. */
  lemma {:induction false} UnchangedKeepsRuns(fl: Flavor, runs: seq<Run>, m: Mapping, row: Row, fmt: Formatters)
    requires Text(runs) == "" || !Substitute(m, row, fmt, Text(runs)).1
    ensures NewRuns(fl, runs, m, row, fmt) == runs
  {
  }

  /** A paragraph without `{{` is left untouched under the row's mapping. */
  lemma {:induction false} NoPlaceholderUntouched(fl: Flavor, runs: seq<Run>, row: Row, fmt: Formatters)
    requires !Contains(Text(runs), TokenPrefix)
    ensures NewRuns(fl, runs, MappingOf(row), row, fmt) == runs
  {
    SubstituteNoOpen(row, fmt, Text(runs));
  }

  /**
   * A changed paragraph ends with exactly one run, which holds the fully replaced text. Its style
   * is the first run's basic attributes (presentation) or the first run's whole style (document).
   */
  lemma {:induction false} ChangedCollapses(fl: Flavor, runs: seq<Run>, m: Mapping, row: Row, fmt: Formatters)
    requires Text(runs) != "" && Substitute(m, row, fmt, Text(runs)).1
    ensures runs != []
    ensures var r := NewRuns(fl, runs, m, row, fmt);
      |r| == 1 && Text(r) == Substitute(m, row, fmt, Text(runs)).0
    ensures var s := NewRuns(fl, runs, m, row, fmt)[0].style;
      var f := runs[0].style;
      s.size == f.size && s.bold == f.bold && s.italic == f.italic && s.name == f.name
      && s.underline == f.underline && s.color == f.color
    ensures fl == Document ==> NewRuns(fl, runs, m, row, fmt)[0].style == runs[0].style
    ensures fl == Presentation ==> NewRuns(fl, runs, m, row, fmt)[0].style.other == map[]
  {
    TextNonEmpty(runs);
    var r := NewRuns(fl, runs, m, row, fmt);
    assert Text(r) == Text(r[..0]) + r[0].text;
  }

  /** A changed paragraph's new runs: one run with the substituted text and the collapsed style. */
  lemma {:induction false} ChangedRuns(fl: Flavor, runs: seq<Run>, m: Mapping, row: Row, fmt: Formatters, replaced: string)
    requires Text(runs) != "" && Substitute(m, row, fmt, Text(runs)) == (replaced, true)
    ensures runs != []
    ensures NewRuns(fl, runs, m, row, fmt) == [Run(replaced, CollapsedStyle(fl, runs[0].style))]
  {
    TextNonEmpty(runs);
  }

  /** The text a paragraph shows afterwards is the substituted text, whether or not it collapsed. */
  lemma {:induction false} NewRunsText(fl: Flavor, runs: seq<Run>, m: Mapping, row: Row, fmt: Formatters)
    ensures Text(NewRuns(fl, runs, m, row, fmt)) == if Text(runs) == "" then "" else Substitute(m, row, fmt, Text(runs)).0
  {
    var text := Text(runs);
    if text != "" {
      var (replaced, changed) := Substitute(m, row, fmt, text);
      if changed {
        ChangedCollapses(fl, runs, m, row, fmt);
      } else {
        var (fast, c) := FastPass(m, text);
        assert !c && ExprPass(fast, row, fmt) == fast;
        FastPassUnchangedText(m, text);
      }
    }
  }

  /** When the literal pass reports no change it also returns its input text. */
  lemma {:induction false} FastPassUnchangedText(m: Mapping, text: string)
    ensures !FastPass(m, text).1 ==> FastPass(m, text).0 == text
  {
    if m != [] {
      FastPassUnchangedText(m[..|m| - 1], text);
    }
  }

  // ---------------------------------------------------------------------
  // The replacers
  // ---------------------------------------------------------------------

  /** `_pptx_replace_in_paragraph` */
  method ReplaceInPresentationParagraph(p: Paragraph, m: Mapping, row: Row, fmt: Formatters)
    modifies p
    ensures p.runs == NewRuns(Presentation, old(p.runs), m, row, fmt)
  {
    var fullText := Text(p.runs);
    if fullText == "" {
      return;
    }
    var replaced, changed := SubstituteText(m, row, fmt, fullText);
    if !changed {
      return;
    }
    ChangedRuns(Presentation, p.runs, m, row, fmt, replaced);
    var first := p.runs[0].style;
    var runs0 := p.runs;
    // every run is removed
    for i := 0 to |runs0|
      invariant p.runs == runs0[i..]
    {
      p.runs := p.runs[1..];
    }
    // a fresh run takes the text and the first run's set attributes
    var s := Style(None, None, None, None, None, None, map[]);
    if first.size.Some? { s := s.(size := first.size); }
    if first.bold.Some? { s := s.(bold := first.bold); }
    if first.italic.Some? { s := s.(italic := first.italic); }
    if first.name.Some? { s := s.(name := first.name); }
    if first.underline.Some? { s := s.(underline := first.underline); }
    if first.color.Some? { s := s.(color := first.color); }
    p.runs := p.runs + [Run(replaced, s)];
  }

  /** The removal of every run of a paragraph but its first, one after the other. */
  method RemoveOtherRuns(p: Paragraph)
    requires p.runs != []
    modifies p
    ensures p.runs == [old(p.runs)[0]]
  {
    var runs := p.runs;
    for k := 1 to |runs|
      invariant p.runs == [runs[0]] + runs[k..]
    {
      p.runs := [p.runs[0]] + p.runs[2..];
    }
  }

  /** `_docx_replace_in_paragraph`; every run is taken to be a direct child of the paragraph. */
  method ReplaceInDocumentParagraph(p: Paragraph, m: Mapping, row: Row, fmt: Formatters)
    modifies p
    ensures p.runs == NewRuns(Document, old(p.runs), m, row, fmt)
  {
    var runs := p.runs;
    var fullText := Text(runs);
    if fullText == "" {
      return;
    }
    var replaced, changed := SubstituteText(m, row, fmt, fullText);
    if !changed {
      return;
    }
    ChangedRuns(Document, runs, m, row, fmt, replaced);
    var baseBold, baseItalic, baseUnderline := runs[0].style.bold, runs[0].style.italic, runs[0].style.underline;
    // the first run takes the whole text
    p.runs := p.runs[0 := p.runs[0].(text := replaced)];
    // its bold, italic and underline are set again to the values they had
    if baseBold.Some? { p.runs := p.runs[0 := p.runs[0].(style := p.runs[0].style.(bold := baseBold))]; }
    if baseItalic.Some? { p.runs := p.runs[0 := p.runs[0].(style := p.runs[0].style.(italic := baseItalic))]; }
    if baseUnderline.Some? { p.runs := p.runs[0 := p.runs[0].(style := p.runs[0].style.(underline := baseUnderline))]; }
    assert p.runs[0] == Run(replaced, runs[0].style);
    // the other runs of the snapshot are removed
    RemoveOtherRuns(p);
  }
}
