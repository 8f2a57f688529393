/**
 * The placeholder language of the templates.
 *
 * A placeholder is `{{ inner }}`.  The inner text is `<main> [ '?:' <default> ]`
 * with `<main> := <column> ( '|' <filter> )*`.  Evaluating it looks the column up
 * in the spreadsheet row, falls back on the default when the value is blank and
 * runs the filters over the result from left to right.
 *
 * Two scanners find placeholders in a paragraph's text: the lazy one used for
 * substitution (`{{`, one or more characters other than `}`, `}}`) and the
 * stricter one used for discovery, whose inner text is limited to letters,
 * digits, `_`, `-`, space, `:` and `|`.
 */
module Tokens {
  import opened Base
  import opened Strings

  const TokenPrefix: string := "{{"
  const TokenSuffix: string := "}}"
  const DefaultMarker: string := "?:"

  // ---------------------------------------------------------------------
  // Rows
  // ---------------------------------------------------------------------

  /** A spreadsheet row as the script sees it: column names with their (string) values, in column order. */
  type Row = seq<(string, string)>

  /**
   * `rowdict.get(col, "")`, where `rowdict` is `row.to_dict()`: a repeated column name keeps the
   * value of its last cell, and an absent column gives "".
   */
  function Lookup(row: Row, col: string): (v: string)
    ensures (forall k :: 0 <= k < |row| ==> row[k].0 != col) ==> v == ""
  {
    if row == [] then ""
    else if row[|row| - 1].0 == col then row[|row| - 1].1
    else
      var v := Lookup(row[..|row| - 1], col);
      assert forall k :: 0 <= k < |row| - 1 ==> row[..|row| - 1][k] == row[k];
      v
  }

  /** The lookup of a column is the value of the last cell that has its name. */
  lemma {:induction false} LookupLast(row: Row, col: string, k: nat)
    requires k < |row| && row[k].0 == col
    requires forall j :: k < j < |row| ==> row[j].0 != col
    ensures Lookup(row, col) == row[k].1
    decreases |row|
  {
    if k < |row| - 1 {
      var init := row[..|row| - 1];
      assert init[k] == row[k];
      assert forall j :: k < j < |init| ==> init[j] == row[j];
      LookupLast(init, col, k);
    }
  }

  /** A column present in the row is looked up from one of its cells, the last one. */
  lemma {:induction false} LookupPresent(row: Row, col: string)
    requires exists k :: 0 <= k < |row| && row[k].0 == col
    ensures exists k :: 0 <= k < |row| && row[k] == (col, Lookup(row, col))
                        && forall j :: k < j < |row| ==> row[j].0 != col
    decreases |row|
  {
    var n := |row| - 1;
    if row[n].0 == col {
      assert row[n] == (col, Lookup(row, col));
    } else {
      var init := row[..n];
      assert Lookup(row, col) == Lookup(init, col);
      var k0 :| 0 <= k0 < |row| && row[k0].0 == col;
      assert init[k0].0 == col;
      LookupPresent(init, col);
      var k :| 0 <= k < |init| && init[k] == (col, Lookup(init, col)) && forall j :: k < j < |init| ==> init[j].0 != col;
      LookupAfter(row, init, col, k);
    }
  }

  /** The cell the lookup of the row without its last cell found is still the last of its name. */
  lemma LookupAfter(row: Row, init: Row, col: string, k: nat)
    requires 0 < |row| && init == row[..|row| - 1] && row[|row| - 1].0 != col
    requires k < |init| && init[k] == (col, Lookup(init, col))
    requires forall j :: k < j < |init| ==> init[j].0 != col
    ensures row[k] == (col, Lookup(row, col)) && forall j :: k < j < |row| ==> row[j].0 != col
  {
    assert Lookup(row, col) == Lookup(init, col);
    assert forall j :: k < j < |init| ==> init[j] == row[j];
  }

  predicate UniqueColumns(row: Row)
  {
    forall i, j :: 0 <= i < j < |row| ==> row[i].0 != row[j].0
  }

  /** With unique column names the lookup finds the column's own value. */
  lemma {:induction false} LookupUnique(row: Row, k: nat)
    requires UniqueColumns(row) && k < |row|
    ensures Lookup(row, row[k].0) == row[k].1
  {
    LookupLast(row, row[k].0, k);
  }

  // ---------------------------------------------------------------------
  // Filters
  // ---------------------------------------------------------------------

  /**
   * The two formatting filters whose inner workings (float and date parsing) are not part of
   * this model; they are arbitrary string-to-string functions.
   */
  datatype Formatters = Formatters(euros: string -> string, dmy: string -> string)

  predicate IsKnownFilter(f: string)
  {
    f == "trim" || f == "upper" || f == "lower" || f == "euros" || f == "dmy"
  }

  /** One filter of the registry; a name the registry does not know leaves the value as it is. */
  function ApplyFilter(f: string, v: string, fmt: Formatters): (r: string)
    ensures !IsKnownFilter(f) ==> r == v
    ensures f == "trim" ==> r == Strip(v)
    ensures f == "upper" ==> r == Upper(v)
    ensures f == "lower" ==> r == Lower(v)
    ensures f == "euros" ==> r == fmt.euros(v)
    ensures f == "dmy" ==> r == fmt.dmy(v)
  {
    if f == "trim" then Strip(v)
    else if f == "upper" then Upper(v)
    else if f == "lower" then Lower(v)
    else if f == "euros" then fmt.euros(v)
    else if f == "dmy" then fmt.dmy(v)
    else v
  }

  /** The filter loop: each filter is applied to the value the previous ones produced. */
  function ApplyFilters(fs: seq<string>, v: string, fmt: Formatters): string
    decreases |fs|
  {
    if fs == [] then v else ApplyFilters(fs[1..], ApplyFilter(fs[0], v, fmt), fmt)
  }

  /** Running `fs + gs` is running `fs` and then `gs` on its result. */
  lemma {:induction false} FiltersAppend(fs: seq<string>, gs: seq<string>, v: string, fmt: Formatters)
    ensures ApplyFilters(fs + gs, v, fmt) == ApplyFilters(gs, ApplyFilters(fs, v, fmt), fmt)
    decreases |fs|
  {
    if fs == [] {
      assert fs + gs == gs;
    } else {
      assert (fs + gs)[1..] == fs[1..] + gs;
      FiltersAppend(fs[1..], gs, ApplyFilter(fs[0], v, fmt), fmt);
    }
  }

  /** Left to right: the last filter is applied last, to what all the earlier ones produced. */
  lemma {:induction false} FiltersLeftToRight(fs: seq<string>, f: string, v: string, fmt: Formatters)
    ensures ApplyFilters(fs + [f], v, fmt) == ApplyFilter(f, ApplyFilters(fs, v, fmt), fmt)
  {
    FiltersAppend(fs, [f], v, fmt);
  }

  /** A filter name outside the registry is skipped wherever it stands. */
  lemma {:induction false} UnknownFilterSkipped(fs: seq<string>, f: string, gs: seq<string>, v: string, fmt: Formatters)
    requires !IsKnownFilter(f)
    ensures ApplyFilters(fs + [f] + gs, v, fmt) == ApplyFilters(fs + gs, v, fmt)
  {
    FiltersAppend(fs + [f], gs, v, fmt);
    FiltersAppend(fs, [f], v, fmt);
    FiltersAppend(fs, gs, v, fmt);
  }

  /** Every filter of the registry maps "" to "" when the two formatters do. */
  lemma {:induction false} FiltersOfEmpty(fs: seq<string>, fmt: Formatters)
    requires fmt.euros("") == "" && fmt.dmy("") == ""
    ensures ApplyFilters(fs, "", fmt) == ""
    decreases |fs|
  {
    if fs != [] {
      var f := fs[0];
      assert ApplyFilter(f, "", fmt) == "" by {
        if f == "trim" { LeadCountAt("", 0); }
      }
      FiltersOfEmpty(fs[1..], fmt);
    }
  }

  // ---------------------------------------------------------------------
  // Parsing and evaluating the inner text of a placeholder
  // ---------------------------------------------------------------------

  /** The default after the first `?:`, stripped, if there is a `?:`. */
  function DefaultOf(raw: string): Option<string>
  {
    var (_, tail) := SplitFirst(raw, DefaultMarker);
    if tail.Some? then Some(Strip(tail.value)) else None
  }

  /** The text before the first `?:`, stripped; the whole text when there is no `?:`. */
  function MainOf(raw: string): string
  {
    var (head, tail) := SplitFirst(raw, DefaultMarker);
    if tail.Some? then Strip(head) else raw
  }

  /** `[p.strip() for p in pieces]` */
  function StripEach(ps: seq<string>): (r: seq<string>)
    ensures |r| == |ps|
    ensures forall k :: 0 <= k < |ps| ==> r[k] == Strip(ps[k])
  {
    if ps == [] then [] else [Strip(ps[0])] + StripEach(ps[1..])
  }

  /** The stripped `|`-separated pieces of the main part; `[""]` for an empty main part. */
  function PiecesOf(raw: string): (r: seq<string>)
    ensures |r| >= 1
  {
    var main := MainOf(raw);
    if main != "" then StripEach(Split(main, '|')) else [main]
  }

  function ColumnOf(raw: string): string
  {
    PiecesOf(raw)[0]
  }

  function FiltersOf(raw: string): seq<string>
  {
    PiecesOf(raw)[1..]
  }

  /** `_eval_token`: total, it returns a string for every inner text and row. */
  function EvalToken(raw: string, row: Row, fmt: Formatters): string
  {
    var dflt := DefaultOf(raw);
    var found := Lookup(row, ColumnOf(raw));
    var start := if dflt.Some? && Strip(found) == "" then dflt.value else found;
    ApplyFilters(FiltersOf(raw), start, fmt)
  }

  /** `_collect_base_name`: the stripped text before the first `?:` and then before the first `|`. */
  function BaseName(inner: string): string
  {
    Strip(Split(SplitFirst(inner, DefaultMarker).0, '|')[0])
  }

  /** `_token(col)`: the literal placeholder of a column. */
  function MakeToken(col: string): string
  {
    TokenPrefix + col + TokenSuffix
  }

  lemma {:induction false} StripEmptyIff(s: string)
    ensures Strip(s) == "" <==> AllSpace(s)
  {
    var a, b := StripParts(s);
    if a == b {
      forall k | 0 <= k < |s| ensures IsSpace(s[k]) {
        if k >= a { assert b <= k; }
      }
    } else {
      assert !IsSpace(s[a]);
    }
  }

  /** With a `|` inside the non-blank middle, the head of the split lies in the middle, after the blank prefix. */
  lemma {:induction false} SplitHeadInside(w1: string, m: string, w2: string)
    requires AllSpace(w1) && '|' in m
    ensures Strip(Split(w1 + (m + w2), '|')[0]) == Strip(Split(m, '|')[0])
  {
    assert '|' !in w1 by {
      forall k | 0 <= k < |w1| ensures w1[k] != '|' {
        assert IsSpace(w1[k]);
      }
    }
    SplitHeadConcat(w1, m + w2, '|');
    SplitHeadConcat(m, w2, '|');
    StripSpacePrefix(w1, Split(m, '|')[0]);
  }

  /** Blank text around a middle without `|` holds no `|`: the head of the split is the whole text. */
  lemma {:induction false} SplitHeadWhole(w1: string, m: string, w2: string)
    requires AllSpace(w1) && AllSpace(w2) && '|' !in m
    ensures Split(w1 + (m + w2), '|')[0] == w1 + (m + w2)
  {
    assert '|' !in w1 + (m + w2) by {
      forall k | 0 <= k < |w1 + (m + w2)| ensures (w1 + (m + w2))[k] != '|' {
        if k < |w1| {
          assert IsSpace(w1[k]);
        } else if k < |w1| + |m| {
          assert (w1 + (m + w2))[k] == m[k - |w1|];
        } else {
          assert IsSpace(w2[k - |w1| - |m|]);
        }
      }
    }
    SplitHeadNoSep(w1 + (m + w2), '|');
  }

  /** The head of a `|`-split, stripped, ignores whitespace around the whole text. */
  lemma {:induction false} StripSplitHead(h: string)
    ensures Strip(Split(Strip(h), '|')[0]) == Strip(Split(h, '|')[0])
  {
    var a, b := StripParts(h);
    var w1, m, w2 := h[..a], h[a..b], h[b..];
    assert h == w1 + (m + w2);
    assert AllSpace(w1) && AllSpace(w2);
    if '|' in m {
      SplitHeadInside(w1, m, w2);
    } else {
      SplitHeadWhole(w1, m, w2);
      SplitHeadNoSep(m, '|');
      StripIdempotent(h);
    }
  }

  /** The column evaluation reads is the base name preflight checks against the spreadsheet. */
  lemma {:induction false} ColumnIsBaseName(raw: string)
    ensures ColumnOf(raw) == BaseName(raw)
  {
    var (head, tail) := SplitFirst(raw, DefaultMarker);
    var main := MainOf(raw);
    if main == "" {
      if tail.Some? {
        StripEmptyIff(head);
        assert '|' !in head by {
          forall k | 0 <= k < |head| ensures head[k] != '|' { assert IsSpace(head[k]); }
        }
        SplitHeadNoSep(head, '|');
        StripSplitHead(head);
      } else {
        assert raw == "";
      }
    } else {
      if tail.Some? {
        StripSplitHead(head);
      }
    }
  }

  /** Without `?:` there is no default and the whole text is the main part. */
  lemma {:induction false} NoMarkerNoDefault(raw: string)
    requires !Contains(raw, DefaultMarker)
    ensures DefaultOf(raw).None? && MainOf(raw) == raw
  {
  }

  /** Only the first `?:` splits: whatever follows it, even another `?:`, is the default. */
  lemma {:induction false} FirstMarkerSplits(h: string, d: string)
    requires !Contains(h, DefaultMarker)
    ensures DefaultOf(h + DefaultMarker + d) == Some(Strip(d))
    ensures MainOf(h + DefaultMarker + d) == Strip(h)
    ensures ColumnOf(h + DefaultMarker + d) == BaseName(h)
  {
    SplitFirstOf(h, DefaultMarker, d);
    ColumnIsBaseName(h + DefaultMarker + d);
    ColumnIsBaseName(h);
    StripSplitHead(h);
  }

  /** The default text decides neither the column nor the filters. */
  lemma {:induction false} DefaultTextIrrelevant(h: string, d1: string, d2: string)
    requires !Contains(h, DefaultMarker)
    ensures ColumnOf(h + DefaultMarker + d1) == ColumnOf(h + DefaultMarker + d2)
    ensures FiltersOf(h + DefaultMarker + d1) == FiltersOf(h + DefaultMarker + d2)
  {
    FirstMarkerSplits(h, d1);
    FirstMarkerSplits(h, d2);
  }

  /** A missing (or empty) column with no default gives "". */
  lemma {:induction false} EvalMissingNoDefault(raw: string, row: Row, fmt: Formatters)
    requires !Contains(raw, DefaultMarker)
    requires Lookup(row, BaseName(raw)) == ""
    requires fmt.euros("") == "" && fmt.dmy("") == ""
    ensures EvalToken(raw, row, fmt) == ""
  {
    ColumnIsBaseName(raw);
    FiltersOfEmpty(FiltersOf(raw), fmt);
  }

  /** A blank column with a default starts from the stripped default, and the filters still run on it. */
  lemma {:induction false} EvalBlankWithDefault(h: string, d: string, row: Row, fmt: Formatters)
    requires !Contains(h, DefaultMarker)
    requires AllSpace(Lookup(row, BaseName(h)))
    ensures EvalToken(h + DefaultMarker + d, row, fmt) == ApplyFilters(FiltersOf(h + DefaultMarker + d), Strip(d), fmt)
  {
    FirstMarkerSplits(h, d);
    StripEmptyIff(Lookup(row, BaseName(h)));
  }

  /** A column with a non-blank value ignores any default and filters the value itself. */
  lemma {:induction false} EvalPresent(raw: string, row: Row, fmt: Formatters)
    requires !AllSpace(Lookup(row, BaseName(raw)))
    ensures EvalToken(raw, row, fmt) == ApplyFilters(FiltersOf(raw), Lookup(row, BaseName(raw)), fmt)
  {
    ColumnIsBaseName(raw);
    StripEmptyIff(Lookup(row, BaseName(raw)));
  }

  // ---------------------------------------------------------------------
  // The substitution scanner: \{\{\s*([^}]+?)\s*\}\}
  // ---------------------------------------------------------------------

  /** Index of the first `}` at or after `j`, or `|s|` when there is none. */
  function NextClose(s: string, j: nat): (n: nat)
    requires j <= |s|
    ensures j <= n <= |s|
    ensures n < |s| ==> s[n] == '}'
    ensures forall k :: j <= k < n ==> s[k] != '}'
    decreases |s| - j
  {
    if j == |s| || s[j] == '}' then j else NextClose(s, j + 1)
  }

  /** The shape a match of either scanner has: `{{`, at least one character other than `}`, `}}`. */
  predicate Delimited(s: string, i: int, e: int)
  {
    0 <= i && i + 5 <= e <= |s| && s[i] == '{' && s[i + 1] == '{' && s[e - 2] == '}' && s[e - 1] == '}'
    && forall k :: i + 2 <= k < e - 2 ==> s[k] != '}'
  }

  /** A match found at `i`: where it ends and the text its group captured. */
  datatype Match = Match(end: nat, group: string)

  /** The text between the braces of the placeholder from `i` to `e`. */
  function Inner(s: string, i: nat, e: nat): (c: string)
    requires i + 5 <= e <= |s|
    ensures |c| == e - i - 4
  {
    s[i + 2..e - 2]
  }

  /** Where a delimited placeholder starting at `i` ends, if one does. */
  function DelimitedEnd(s: string, i: nat): (m: Option<nat>)
    requires i <= |s|
    ensures m.Some? ==> Delimited(s, i, m.value)
    ensures m.None? ==> forall e :: !Delimited(s, i, e)
    ensures i < |s| && s[i] != '{' ==> m.None?
  {
    if i + 1 < |s| && s[i] == '{' && s[i + 1] == '{' then
      var j := NextClose(s, i + 2);
      if i + 2 < j && j + 1 < |s| && s[j + 1] == '}' then Some(j + 2)
      else
        assert forall e :: Delimited(s, i, e) ==> e - 2 == j;
        None
    else None
  }

  /**
   * The group of the lazy pattern for the text `c` between the braces: the stripped text,
   * or, when `c` is all whitespace, its last character (the lazy group must take one).
   */
  function LazyGroup(c: string): string
    requires c != []
  {
    if Strip(c) == [] then [c[|c| - 1]] else Strip(c)
  }

  function InnerMatchAt(s: string, i: nat): (m: Option<Match>)
    requires i <= |s|
    ensures m.Some? <==> exists e :: Delimited(s, i, e)
    ensures m.Some? ==> Delimited(s, i, m.value.end) && m.value.group == LazyGroup(Inner(s, i, m.value.end))
  {
    match DelimitedEnd(s, i)
    case None => None
    case Some(e) =>
      assert Delimited(s, i, e);
      Some(Match(e, LazyGroup(Inner(s, i, e))))
  }

  /**
   * `re.sub` over `s`, for either pattern's placeholders: matches are tried left to right and
   * never overlap; a placeholder is replaced by `eval` of its inner text and the scan goes on
   * after it, and any other character is kept.
   */
  function Sub(s: string, eval: string -> string): string
    decreases |s|
  {
    if s == [] then ""
    else
      match DelimitedEnd(s, 0)
      case Some(e) => eval(Inner(s, 0, e)) + Sub(s[e..], eval)
      case None => [s[0]] + Sub(s[1..], eval)
  }

  /** What `_eval_token` makes of a placeholder with inner text `c`: the evaluation of the lazy group. */
  function EvalGroup(c: string, row: Row, fmt: Formatters): string
  {
    if c == [] then "" else EvalToken(LazyGroup(c), row, fmt)
  }

  /** `_eval_token` as the replacement function handed to the scanner. */
  function EvalInner(row: Row, fmt: Formatters): string -> string
  {
    c => EvalGroup(c, row, fmt)
  }

  /** The expression pass of the paragraph replacers: `TOKEN_INNER_RE.sub(_eval_token, text)`. */
  function ExprPass(s: string, row: Row, fmt: Formatters): string
  {
    Sub(s, EvalInner(row, fmt))
  }

  /**
   * One step of the expression pass is one match of the lazy pattern: where it matches at the
   * start, the evaluation of its group replaces the match; elsewhere the first character is kept.
   */
  lemma ExprPassMatch(s: string, row: Row, fmt: Formatters)
    requires s != []
    ensures InnerMatchAt(s, 0).Some? ==>
      ExprPass(s, row, fmt)
      == EvalToken(InnerMatchAt(s, 0).value.group, row, fmt) + ExprPass(s[InnerMatchAt(s, 0).value.end..], row, fmt)
    ensures InnerMatchAt(s, 0).None? ==> ExprPass(s, row, fmt) == [s[0]] + ExprPass(s[1..], row, fmt)
  {
  }

  lemma {:induction false} NoOpenNoDelimited(s: string, i: nat)
    requires i <= |s| && !Contains(s, TokenPrefix)
    ensures DelimitedEnd(s, i).None?
  {
    if DelimitedEnd(s, i).Some? {
      assert s[i..i + 2] == TokenPrefix;
      ContainsAt(s, TokenPrefix, i);
      assert false;
    }
  }

  /** Dropping the first character of a text without `{{` leaves a text without `{{`. */
  lemma {:induction false} NoOpenTail(s: string)
    requires s != [] && !Contains(s, TokenPrefix)
    ensures !Contains(s[1..], TokenPrefix)
  {
    forall k | 0 <= k
      ensures !OccursAt(s[1..], TokenPrefix, k)
    {
      if k + 3 <= |s| {
        assert s[1..][k..k + 2] == s[k + 1..k + 3];
        assert !OccursAt(s, TokenPrefix, k + 1);
      }
    }
  }

  lemma {:induction false} SubNoOpen(s: string, eval: string -> string)
    requires !Contains(s, TokenPrefix)
    ensures Sub(s, eval) == s
    decreases |s|
  {
    if s != [] {
      NoOpenNoDelimited(s, 0);
      NoOpenTail(s);
      SubNoOpen(s[1..], eval);
    }
  }

  /** Text without `{{` passes the expression pass unchanged. */
  lemma {:induction false} ExprPassNoOpen(s: string, row: Row, fmt: Formatters)
    requires !Contains(s, TokenPrefix)
    ensures ExprPass(s, row, fmt) == s
  {
    SubNoOpen(s, EvalInner(row, fmt));
  }

  /** Two equal ends of placeholders starting at the same place: the first `}}` closes it. */
  lemma DelimitedUnique(s: string, i: int, e1: int, e2: int)
    requires Delimited(s, i, e1) && Delimited(s, i, e2)
    ensures e1 == e2
  {
    assert s[e1 - 2] == '}' && s[e2 - 2] == '}';
    assert !(e1 < e2);
    assert !(e2 < e1);
  }

  lemma PlaceholderSplit(p: string, c: string, q: string)
    ensures p + TokenPrefix + c + TokenSuffix + q == p + (TokenPrefix + c + TokenSuffix + q)
  {
  }

  /** A text starting with a character other than `{` starts no placeholder, whatever follows. */
  lemma NoOpenFirst(t: string, r: string)
    requires t != [] && t[0] != '{'
    ensures DelimitedEnd(t + r, 0).None?
    ensures (t + r)[1..] == t[1..] + r
  {
    assert (t + r)[0] == t[0];
  }

  /** `{{c}}` at the start of a text, with no `}` in `c`, is one placeholder holding `c`. */
  lemma {:induction false} PlaceholderFirst(c: string, q: string)
    requires c != [] && '}' !in c
    ensures var s := TokenPrefix + c + TokenSuffix + q;
      DelimitedEnd(s, 0).Some? && DelimitedEnd(s, 0).value == |c| + 4
      && Inner(s, 0, |c| + 4) == c && s[|c| + 4..] == q
  {
    var s := TokenPrefix + c + TokenSuffix + q;
    assert forall k :: 0 <= k < |c| ==> s[2 + k] == c[k];
    assert s[0] == '{' && s[1] == '{';
    assert s[|c| + 2] == '}' && s[|c| + 3] == '}';
    assert forall k :: 2 <= k < |c| + 2 ==> s[k] != '}';
    assert NextClose(s, 2) == |c| + 2;
    assert s[2..|c| + 2] == c;
    assert s[|c| + 4..] == q;
  }

  /** A scan replacing placeholders copies text without `{` and goes on after it. */
  lemma {:induction false} SubCopies(t: string, r: string, eval: string -> string)
    requires '{' !in t
    ensures Sub(t + r, eval) == t + Sub(r, eval)
    decreases |t|
  {
    if t == [] {
      assert t + r == r;
    } else {
      NoOpenFirst(t, r);
      SubCopies(t[1..], r, eval);
    }
  }

  /** A scan replacing placeholders replaces `{{c}}` after text without `{` by `eval(c)`, then goes on. */
  lemma {:induction false} SubReplaces(p: string, c: string, q: string, eval: string -> string)
    requires '{' !in p && c != [] && '}' !in c
    ensures Sub(p + TokenPrefix + c + TokenSuffix + q, eval) == p + eval(c) + Sub(q, eval)
  {
    var x := TokenPrefix + c + TokenSuffix + q;
    PlaceholderFirst(c, q);
    assert Sub(x, eval) == eval(c) + Sub(q, eval);
    SubCopies(p, x, eval);
    PlaceholderSplit(p, c, q);
  }

  /**
   * `TOKEN_INNER_RE.sub`: a placeholder `{{c}}` after text without `{` is replaced by the
   * evaluation of the group the lazy pattern captures, and the rest of the text is substituted
   * in turn.
   */
  lemma {:induction false} ExprPassReplaces(p: string, c: string, q: string, row: Row, fmt: Formatters)
    requires '{' !in p && c != [] && '}' !in c
    ensures ExprPass(p + TokenPrefix + c + TokenSuffix + q, row, fmt)
         == p + EvalToken(LazyGroup(c), row, fmt) + ExprPass(q, row, fmt)
  {
    SubReplaces(p, c, q, EvalInner(row, fmt));
    assert EvalInner(row, fmt)(c) == EvalToken(LazyGroup(c), row, fmt);
  }

  // ---------------------------------------------------------------------
  // The discovery scanner: \{\{\s*([A-Za-z0-9_\- :|]+)\s*\}\}
  // ---------------------------------------------------------------------

  predicate IsNameChar(c: char)
  {
    ('A' <= c <= 'Z') || ('a' <= c <= 'z') || ('0' <= c <= '9') || c == '_' || c == '-' || c == ' ' || c == ':' || c == '|'
  }

  predicate AllNameChars(s: string)
  {
    forall k :: 0 <= k < |s| ==> IsNameChar(s[k])
  }

  /**
   * Whether the strict pattern accepts `c` between the braces: apart from surrounding whitespace it
   * is made of name characters; an all-whitespace `c` is accepted when it holds a space, which the
   * group can take.
   */
  predicate DiscoveryAccepts(c: string)
  {
    var t := Strip(c);
    if t == [] then ' ' in c else AllNameChars(t)
  }

  /** What the collectors keep of a placeholder with inner text `c`: the stripped group, when the strict pattern accepts `c`. */
  function DiscoveryGroup(c: string): Option<string>
  {
    if DiscoveryAccepts(c) then Some(Strip(c)) else None
  }

  /** A match of the strict pattern at `i`, with the group already stripped as the collectors do. */
  function DiscoveryMatchAt(s: string, i: nat): (m: Option<Match>)
    requires i <= |s|
    ensures m.Some? ==> Delimited(s, i, m.value.end) && m.value.group == Strip(Inner(s, i, m.value.end))
    ensures m.Some? ==> InnerMatchAt(s, i).Some? && InnerMatchAt(s, i).value.end == m.value.end
  {
    match DelimitedEnd(s, i)
    case None => None
    case Some(e) => if DiscoveryAccepts(Inner(s, i, e)) then Some(Match(e, Strip(Inner(s, i, e)))) else None
  }

  /** The strict pattern matches at `i` exactly when a placeholder starts there whose inner text it accepts. */
  lemma DiscoveryMatchIff(s: string, i: nat)
    requires i <= |s|
    ensures DiscoveryMatchAt(s, i).Some? <==> exists e :: Delimited(s, i, e) && DiscoveryAccepts(Inner(s, i, e))
  {
    if e :| Delimited(s, i, e) && DiscoveryAccepts(Inner(s, i, e)) {
      DelimitedUnique(s, i, e, DelimitedEnd(s, i).value);
    }
  }

  /**
   * `{group(m) for m in pattern.finditer(s)}`: where a placeholder starts whose inner text
   * `group` accepts, the result is collected and the scan goes on after the placeholder;
   * anywhere else the scan goes on with the next character.
   */
  function DiscoverIn(s: string, group: string -> Option<string>): set<string>
    decreases |s|
  {
    if s == [] then {}
    else
      match DelimitedEnd(s, 0)
      case Some(e) =>
        if group(Inner(s, 0, e)).Some? then {group(Inner(s, 0, e)).value} + DiscoverIn(s[e..], group)
        else DiscoverIn(s[1..], group)
      case None => DiscoverIn(s[1..], group)
  }

  /** `{m.group(1).strip() for m in TOKEN_RE.finditer(s)}` */
  function Discover(s: string): set<string>
  {
    DiscoverIn(s, DiscoveryGroup)
  }

  /** One step of discovery is one match of the strict pattern at the start, or a move to the next character. */
  lemma DiscoverMatch(s: string)
    requires s != []
    ensures DiscoveryMatchAt(s, 0).Some? ==>
      Discover(s) == {DiscoveryMatchAt(s, 0).value.group} + Discover(s[DiscoveryMatchAt(s, 0).value.end..])
    ensures DiscoveryMatchAt(s, 0).None? ==> Discover(s) == Discover(s[1..])
  {
  }

  lemma {:induction false} DiscoverNameChars(s: string)
    ensures forall t :: t in Discover(s) ==> AllNameChars(t)
    decreases |s|
  {
    if s != [] {
      match DelimitedEnd(s, 0)
      case Some(e) =>
        DiscoverNameChars(s[e..]);
        DiscoverNameChars(s[1..]);
      case None =>
        DiscoverNameChars(s[1..]);
    }
  }

  /** Name characters never spell the default marker. */
  lemma {:induction false} NameCharsNoMarker(t: string)
    requires AllNameChars(t)
    ensures !Contains(t, DefaultMarker)
  {
    forall k | 0 <= k < |t| ensures !OccursAt(t, DefaultMarker, k) {
      assert IsNameChar(t[k]);
    }
  }

  /** Discovered names are made of name characters only; in particular they never hold a `?:` default. */
  lemma {:induction false} DiscoveredHaveNoDefault(s: string, t: string)
    requires t in Discover(s)
    ensures AllNameChars(t)
    ensures !Contains(t, DefaultMarker)
    ensures BaseName(t) == Strip(Split(t, '|')[0])
  {
    DiscoverNameChars(s);
    NameCharsNoMarker(t);
  }

  /** A scan collects nothing from text without `{` and goes on after it. */
  lemma {:induction false} DiscoverSkips(t: string, r: string, group: string -> Option<string>)
    requires '{' !in t
    ensures DiscoverIn(t + r, group) == DiscoverIn(r, group)
    decreases |t|
  {
    if t == [] {
      assert t + r == r;
    } else {
      NoOpenFirst(t, r);
      DiscoverSkips(t[1..], r, group);
    }
  }

  /** A scan collects the result for an accepted `{{c}}` after text without `{`, then goes on. */
  lemma {:induction false} DiscoverInAccepted(p: string, c: string, q: string, group: string -> Option<string>)
    requires '{' !in p && c != [] && '}' !in c && group(c).Some?
    ensures DiscoverIn(p + TokenPrefix + c + TokenSuffix + q, group) == {group(c).value} + DiscoverIn(q, group)
  {
    var x := TokenPrefix + c + TokenSuffix + q;
    PlaceholderFirst(c, q);
    assert DiscoverIn(x, group) == {group(c).value} + DiscoverIn(q, group);
    DiscoverSkips(p, x, group);
    PlaceholderSplit(p, c, q);
  }

  /** A refused `{{c}}` at the start, with no `{` inside, yields nothing, and the scan goes on after it. */
  lemma {:induction false} DiscoverRefusedFirst(c: string, q: string, group: string -> Option<string>)
    requires c != [] && '{' !in c && '}' !in c && group(c).None?
    ensures DiscoverIn(TokenPrefix + c + TokenSuffix + q, group) == DiscoverIn("{" + c + TokenSuffix + q, group)
  {
    PlaceholderFirst(c, q);
    assert (TokenPrefix + c + TokenSuffix + q)[1..] == "{" + c + TokenSuffix + q;
  }

  /** After the refused placeholder's first `{`, the scan finds nothing up to the text after it. */
  lemma {:induction false} DiscoverRefusedRest(c: string, q: string, group: string -> Option<string>)
    requires c != [] && '{' !in c && '}' !in c
    ensures DiscoverIn("{" + c + TokenSuffix + q, group) == DiscoverIn(q, group)
  {
    var y := "{" + c + TokenSuffix + q;
    assert y[1] == c[0];
    assert DelimitedEnd(y, 0).None?;
    assert y[1..] == c + (TokenSuffix + q);
    DiscoverSkips(c, TokenSuffix + q, group);
    DiscoverSkips(TokenSuffix, q, group);
  }

  /** A scan collects nothing for a refused `{{c}}` without `{` inside, after text without `{`. */
  lemma {:induction false} DiscoverInRefused(p: string, c: string, q: string, group: string -> Option<string>)
    requires '{' !in p && c != [] && '{' !in c && '}' !in c && group(c).None?
    ensures DiscoverIn(p + TokenPrefix + c + TokenSuffix + q, group) == DiscoverIn(q, group)
  {
    var x := TokenPrefix + c + TokenSuffix + q;
    DiscoverRefusedFirst(c, q, group);
    DiscoverRefusedRest(c, q, group);
    DiscoverSkips(p, x, group);
    PlaceholderSplit(p, c, q);
  }

  /**
   * `TOKEN_RE.finditer`: a placeholder `{{c}}` that the strict pattern accepts, after text
   * without `{`, is discovered with its stripped inner text, and discovery goes on after it.
   */
  lemma {:induction false} DiscoverFinds(p: string, c: string, q: string)
    requires '{' !in p && c != [] && '}' !in c && DiscoveryAccepts(c)
    ensures Discover(p + TokenPrefix + c + TokenSuffix + q) == {Strip(c)} + Discover(q)
  {
    DiscoverInAccepted(p, c, q, DiscoveryGroup);
  }

  /**
   * A placeholder the strict pattern refuses (one with a `?:` default, for instance, or another
   * character outside `[A-Za-z0-9_\- :|]`) is not discovered, and nothing inside it is.
   */
  lemma {:induction false} DiscoverSkipsRejected(p: string, c: string, q: string)
    requires '{' !in p && c != [] && '{' !in c && '}' !in c && !DiscoveryAccepts(c)
    ensures Discover(p + TokenPrefix + c + TokenSuffix + q) == Discover(q)
  {
    DiscoverInRefused(p, c, q, DiscoveryGroup);
  }

  /** Text without `{{` has no placeholders to discover. */
  lemma {:induction false} DiscoverNoOpen(s: string)
    requires !Contains(s, TokenPrefix)
    ensures Discover(s) == {}
    decreases |s|
  {
    if s != [] {
      NoOpenNoDelimited(s, 0);
      NoOpenTail(s);
      DiscoverNoOpen(s[1..]);
    }
  }

  /** A literal placeholder contains the opening delimiter. */
  lemma {:induction false} MakeTokenHasOpen(col: string)
    ensures Contains(MakeToken(col), TokenPrefix)
  {
    assert MakeToken(col)[0..2] == TokenPrefix;
    ContainsAt(MakeToken(col), TokenPrefix, 0);
  }
}
