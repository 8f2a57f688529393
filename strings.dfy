/**
 * The Python string operations the script relies on, written out:
 * `str.isspace`/`str.strip`, substring search, `str.split`, `str.replace`,
 * `str.lower`/`str.upper` (exact on Latin-1) and `str.endswith`.
 */
module Strings {
  import opened Base

  // ---------------------------------------------------------------------
  // Whitespace and strip
  // ---------------------------------------------------------------------

  /** The characters for which Python's `str.isspace()` holds; `\s` in a `str` pattern matches the same ones. */
  predicate IsSpace(c: char)
  {
    var n := c as int;
    (9 <= n <= 13) || (28 <= n <= 32) || n == 0x85 || n == 0xA0 || n == 0x1680
    || (0x2000 <= n <= 0x200A) || n == 0x2028 || n == 0x2029 || n == 0x202F
    || n == 0x205F || n == 0x3000
  }

  predicate AllSpace(s: string)
  {
    forall k :: 0 <= k < |s| ==> IsSpace(s[k])
  }

  /** Number of leading whitespace characters. */
  function LeadCount(s: string): (n: nat)
    ensures n <= |s|
    ensures n < |s| ==> !IsSpace(s[n])
    ensures forall k :: 0 <= k < n ==> IsSpace(s[k])
  {
    if s != [] && IsSpace(s[0]) then 1 + LeadCount(s[1..]) else 0
  }

  function TrailCount(s: string): (n: nat)
    ensures n <= |s|
    ensures n < |s| ==> !IsSpace(s[|s| - 1 - n])
    ensures forall k :: |s| - n <= k < |s| ==> IsSpace(s[k])
  {
    if s != [] && IsSpace(s[|s| - 1]) then 1 + TrailCount(s[..|s| - 1]) else 0
  }

  /** `s.lstrip()` */
  function LStrip(s: string): string
  {
    s[LeadCount(s)..]
  }

  /** `s.rstrip()` */
  function RStrip(s: string): string
  {
    s[..|s| - TrailCount(s)]
  }

  /** `s.strip()` */
  function Strip(s: string): string
  {
    RStrip(LStrip(s))
  }

  lemma {:induction false} LeadCountAt(s: string, a: nat)
    requires a <= |s| && (forall k :: 0 <= k < a ==> IsSpace(s[k])) && (a == |s| || !IsSpace(s[a]))
    ensures LeadCount(s) == a
  {
  }

  lemma {:induction false} TrailCountAt(s: string, b: nat)
    requires b <= |s| && (forall k :: b <= k < |s| ==> IsSpace(s[k])) && (b == 0 || !IsSpace(s[b - 1]))
    ensures TrailCount(s) == |s| - b
  {
  }

  /** Strip is determined by its margins: a slice flanked by whitespace and bounded by non-whitespace is what strip returns. */
  lemma {:induction false} StripAt(s: string, a: nat, b: nat)
    requires a <= b <= |s|
    requires forall k :: 0 <= k < a ==> IsSpace(s[k])
    requires forall k :: b <= k < |s| ==> IsSpace(s[k])
    requires a == b || (!IsSpace(s[a]) && !IsSpace(s[b - 1]))
    ensures Strip(s) == s[a..b]
  {
    if a < b {
      LeadCountAt(s, a);
      var l := s[a..];
      TrailCountAt(l, b - a);
    } else {
      LeadCountAt(s, |s|);
    }
  }

  /** Strip keeps one contiguous slice of its input, with only whitespace cut off on either side. */
  lemma {:induction false} StripParts(s: string) returns (a: nat, b: nat)
    ensures a <= b <= |s| && Strip(s) == s[a..b]
    ensures forall k :: 0 <= k < a ==> IsSpace(s[k])
    ensures forall k :: b <= k < |s| ==> IsSpace(s[k])
    ensures a == b || (!IsSpace(s[a]) && !IsSpace(s[b - 1]))
  {
    a := LeadCount(s);
    var l := s[a..];
    var t := TrailCount(l);
    b := a + |l| - t;
    assert Strip(s) == l[..|l| - t] == s[a..b];
    forall k | b <= k < |s|
      ensures IsSpace(s[k])
    {
      assert s[k] == l[k - a];
    }
    if a < b { assert s[b - 1] == l[|l| - 1 - t]; }
  }

  /** The margins of `y` shift by `|w|` in `w + y`, and whitespace `w` joins the leading margin. */
  lemma PrefixMargins(w: string, y: string, a: nat, b: nat)
    requires AllSpace(w) && a <= b <= |y|
    requires forall k :: 0 <= k < a ==> IsSpace(y[k])
    requires forall k :: b <= k < |y| ==> IsSpace(y[k])
    requires a == b || (!IsSpace(y[a]) && !IsSpace(y[b - 1]))
    ensures forall k :: 0 <= k < |w| + a ==> IsSpace((w + y)[k])
    ensures forall k :: |w| + b <= k < |w + y| ==> IsSpace((w + y)[k])
    ensures a == b || (!IsSpace((w + y)[|w| + a]) && !IsSpace((w + y)[|w| + b - 1]))
    ensures (w + y)[|w| + a..|w| + b] == y[a..b]
  {
    var s := w + y;
    forall k | 0 <= k < |w| + a
      ensures IsSpace(s[k])
    {
      if k < |w| { assert s[k] == w[k]; } else { assert s[k] == y[k - |w|]; }
    }
    forall k | |w| + b <= k < |s|
      ensures IsSpace(s[k])
    {
      assert s[k] == y[k - |w|];
    }
  }

  /** The margins of `y` stay in place in `y + w`, and whitespace `w` joins the trailing margin. */
  lemma SuffixMargins(y: string, w: string, a: nat, b: nat)
    requires AllSpace(w) && a <= b <= |y|
    requires forall k :: 0 <= k < a ==> IsSpace(y[k])
    requires forall k :: b <= k < |y| ==> IsSpace(y[k])
    requires a == b || (!IsSpace(y[a]) && !IsSpace(y[b - 1]))
    ensures forall k :: 0 <= k < a ==> IsSpace((y + w)[k])
    ensures forall k :: b <= k < |y + w| ==> IsSpace((y + w)[k])
    ensures a == b || (!IsSpace((y + w)[a]) && !IsSpace((y + w)[b - 1]))
    ensures (y + w)[a..b] == y[a..b]
  {
    var s := y + w;
    forall k | b <= k < |s|
      ensures IsSpace(s[k])
    {
      if k < |y| { assert s[k] == y[k]; } else { assert s[k] == w[k - |y|]; }
    }
  }

  /** Whitespace in front of a string does not change what strip returns. */
  lemma {:induction false} StripSpacePrefix(w: string, y: string)
    requires AllSpace(w)
    ensures Strip(w + y) == Strip(y)
  {
    var a, b := StripParts(y);
    PrefixMargins(w, y, a, b);
    StripAt(w + y, |w| + a, |w| + b);
  }

  /** Whitespace behind a string does not change what strip returns. */
  lemma {:induction false} StripSpaceSuffix(y: string, w: string)
    requires AllSpace(w)
    ensures Strip(y + w) == Strip(y)
  {
    var a, b := StripParts(y);
    SuffixMargins(y, w, a, b);
    StripAt(y + w, a, b);
  }

  /** Strip is idempotent. */
  lemma {:induction false} StripIdempotent(s: string)
    ensures Strip(Strip(s)) == Strip(s)
  {
    var a, b := StripParts(s);
    var m := s[a..b];
    StripAt(m, 0, |m|);
  }


  // ---------------------------------------------------------------------
  // Substrings
  // ---------------------------------------------------------------------

  predicate OccursAt(s: string, t: string, k: int)
  {
    0 <= k && k + |t| <= |s| && s[k..k + |t|] == t
  }

  /** `s.find(t)`, as an option: the index of the first occurrence of `t` in `s`. */
  function Find(s: string, t: string): (r: Option<nat>)
    ensures r.Some? ==> OccursAt(s, t, r.value)
    ensures r.Some? ==> forall k :: 0 <= k < r.value ==> !OccursAt(s, t, k)
    ensures r.None? ==> forall k :: !OccursAt(s, t, k)
    decreases |s|
  {
    if |s| < |t| then None
    else if s[..|t|] == t then Some(0)
    else
      match Find(s[1..], t)
      case None =>
        assert forall k :: OccursAt(s, t, k) ==> k == 0 || OccursAt(s[1..], t, k - 1);
        None
      case Some(k) =>
        assert forall j :: 0 < j && OccursAt(s, t, j) ==> OccursAt(s[1..], t, j - 1);
        assert OccursAt(s[1..], t, k) ==> OccursAt(s, t, k + 1);
        Some(k + 1)
  }

  /** Python's `t in s`. */
  predicate Contains(s: string, t: string)
  {
    Find(s, t).Some?
  }

  lemma {:induction false} ContainsAt(s: string, t: string, k: int)
    requires OccursAt(s, t, k)
    ensures Contains(s, t)
  {
  }

  /** A substring of a substring is a substring. */
  lemma {:induction false} ContainsTransitive(s: string, t: string, u: string)
    requires Contains(s, t) && Contains(t, u)
    ensures Contains(s, u)
  {
    var i := Find(s, t).value;
    var j := Find(t, u).value;
    assert s[i..i + |t|] == t && t[j..j + |u|] == u;
    forall m | 0 <= m < |u|
      ensures s[i + j + m] == u[m]
    {
      assert u[m] == t[j + m] == s[i..i + |t|][j + m];
    }
    assert s[i + j..i + j + |u|] == u;
    ContainsAt(s, u, i + j);
  }

  /** The head of `s` before index `i` has no occurrence of `t` when none starts before `i`. */
  lemma {:induction false} NoneBefore(s: string, t: string, i: nat)
    requires t != [] && i <= |s|
    requires forall k :: 0 <= k < i ==> !OccursAt(s, t, k)
    ensures !Contains(s[..i], t)
  {
    var h := s[..i];
    var g := Find(h, t);
    if g.Some? {
      var k := g.value;
      assert h[k..k + |t|] == s[k..k + |t|];
      assert OccursAt(s, t, k);
      assert false;
    }
  }

  /**
   * `s.split(sep, 1)`: the text before the first `sep` and, when there is one, the text after it.
   * The pieces put back together give the input, and the head holds no separator.
   * (Python refuses an empty separator.)
   */
  function SplitFirst(s: string, sep: string): (r: (string, Option<string>))
    requires sep != []
    ensures r.1.None? ==> r.0 == s && !Contains(s, sep)
    ensures r.1.Some? ==> s == r.0 + sep + r.1.value && !Contains(r.0, sep)
  {
    var f := Find(s, sep);
    if f.None? then (s, None)
    else
      var i := f.value;
      assert s == s[..i] + s[i..i + |sep|] + s[i + |sep|..];
      NoneBefore(s, sep, i);
      (s[..i], Some(s[i + |sep|..]))
  }

  /**
   * The unique split point: for a two-character separator made of two different characters
   * (such as "?:"), any `h + sep + t` whose head has no separator splits into `h` and `t`.
   */
  lemma {:induction false} SplitFirstOf(h: string, sep: string, t: string)
    requires |sep| == 2 && sep[0] != sep[1]
    requires !Contains(h, sep)
    ensures SplitFirst(h + sep + t, sep) == (h, Some(t))
  {
    var s := h + sep + t;
    assert s[|h|..|h| + |sep|] == sep;
    assert OccursAt(s, sep, |h|);
    assert forall k :: !OccursAt(h, sep, k);
    forall k | 0 <= k < |h| ensures !OccursAt(s, sep, k) {
      if k + 2 <= |h| {
        assert s[k..k + 2] == h[k..k + 2];
        assert !OccursAt(h, sep, k);
      } else {
        assert s[k + 1] == sep[0];
      }
    }
    var i := Find(s, sep).value;
    assert i == |h|;
    assert s[..i] == h;
    assert s[i + |sep|..] == t;
  }

  // ---------------------------------------------------------------------
  // Split on one character
  // ---------------------------------------------------------------------

  /** `s.split(c)` for a one-character separator: never empty, `[""]` for the empty string. */
  function Split(s: string, c: char): (r: seq<string>)
    ensures |r| >= 1
    decreases |s|
  {
    if s == [] then [""]
    else
      var rest := Split(s[1..], c);
      if s[0] == c then [""] + rest else [[s[0]] + rest[0]] + rest[1..]
  }

  /** `sep.join(pieces)` for a one-character separator. */
  function Join(pieces: seq<string>, c: char): string
  {
    if pieces == [] then "" else if |pieces| == 1 then pieces[0] else pieces[0] + [c] + Join(pieces[1..], c)
  }

  /** Join undoes Split, and no piece holds the separator. */
  lemma {:induction false} SplitJoin(s: string, c: char)
    ensures Join(Split(s, c), c) == s
    ensures forall k :: 0 <= k < |Split(s, c)| ==> c !in Split(s, c)[k]
    decreases |s|
  {
    if s != [] {
      SplitJoin(s[1..], c);
      var rest := Split(s[1..], c);
      if s[0] == c {
        assert Split(s, c) == [""] + rest;
        assert Join(Split(s, c), c) == "" + [c] + Join(rest, c);
        assert s == [s[0]] + s[1..];
      } else {
        var r := Split(s, c);
        assert r == [[s[0]] + rest[0]] + rest[1..];
        assert r[1..] == rest[1..];
        if |rest| == 1 {
          assert Join(r, c) == [s[0]] + rest[0];
        } else {
          assert Join(rest, c) == rest[0] + [c] + Join(rest[1..], c);
          assert Join(r, c) == [s[0]] + rest[0] + [c] + Join(rest[1..], c);
        }
        assert s == [s[0]] + s[1..];
        forall k | 0 <= k < |r| ensures c !in r[k] {
          if k > 0 { assert r[k] == rest[k]; }
        }
      }
    }
  }

  /** The first piece of a split ends at the first character when that is the separator, and otherwise continues it. */
  lemma SplitHeadStep(s: string, c: char)
    requires s != []
    ensures Split(s, c)[0] == if s[0] == c then "" else [s[0]] + Split(s[1..], c)[0]
  {
  }

  /** The first piece of a split of `x + y`. */
  lemma {:induction false} SplitHeadConcat(x: string, y: string, c: char)
    ensures Split(x + y, c)[0] == if c in x then Split(x, c)[0] else x + Split(y, c)[0]
    decreases |x|
  {
    if x == [] {
      assert x + y == y;
    } else {
      var s := x + y;
      assert s[0] == x[0] && s[1..] == x[1..] + y;
      SplitHeadConcat(x[1..], y, c);
      SplitHeadStep(s, c);
      SplitHeadStep(x, c);
      assert c in x <==> x[0] == c || c in x[1..];
      if x[0] != c && c !in x[1..] {
        var h := Split(y, c)[0];
        assert [x[0]] + (x[1..] + h) == ([x[0]] + x[1..]) + h;
        assert [x[0]] + x[1..] == x;
      }
    }
  }

  lemma {:induction false} SplitHeadNoSep(s: string, c: char)
    requires c !in s
    ensures Split(s, c)[0] == s
  {
    SplitHeadConcat(s, "", c);
    assert s + "" == s;
  }

  // ---------------------------------------------------------------------
  // Replace
  // ---------------------------------------------------------------------

  /** `s.replace(t, v)`: every non-overlapping occurrence of `t`, scanned left to right. */
  function ReplaceAll(s: string, t: string, v: string): string
    decreases |s|
  {
    if t == [] then
      // Python inserts `v` around every character when the old string is empty
      if s == [] then v else v + [s[0]] + ReplaceAll(s[1..], t, v)
    else if |s| < |t| then s
    else if s[..|t|] == t then v + ReplaceAll(s[|t|..], t, v)
    else [s[0]] + ReplaceAll(s[1..], t, v)
  }

  /** A string without an occurrence is left as it is. */
  lemma {:induction false} ReplaceAbsent(s: string, t: string, v: string)
    requires t != [] && !Contains(s, t)
    ensures ReplaceAll(s, t, v) == s
    decreases |s|
  {
    if |s| >= |t| {
      assert !OccursAt(s, t, 0);
      assert forall k :: OccursAt(s[1..], t, k) ==> OccursAt(s, t, k + 1);
      ReplaceAbsent(s[1..], t, v);
      assert s == [s[0]] + s[1..];
    }
  }

  /** Replacing a string by itself changes nothing. */
  lemma {:induction false} ReplaceBySelf(s: string, t: string)
    ensures ReplaceAll(s, t, t) == s
    decreases |s|
  {
    if t == [] {
      if s != [] { ReplaceBySelf(s[1..], t); assert s == [s[0]] + s[1..]; }
    } else if |s| >= |t| {
      if s[..|t|] == t {
        ReplaceBySelf(s[|t|..], t);
        assert s == s[..|t|] + s[|t|..];
      } else {
        ReplaceBySelf(s[1..], t);
        assert s == [s[0]] + s[1..];
      }
    }
  }

  // ---------------------------------------------------------------------
  // Case mapping (exact for code points up to U+00FF) and endswith
  // ---------------------------------------------------------------------

  /** `c.lower()` for Latin-1; other characters are returned unchanged. */
  function LowerChar(c: char): char
  {
    if ('A' <= c <= 'Z') || ('\U{C0}' <= c <= '\U{DE}' && c != '\U{D7}') then (c as int + 32) as char else c
  }

  /** `c.upper()` for Latin-1 ('ß' becomes "SS"); other characters are returned unchanged. */
  function UpperChar(c: char): string
  {
    if ('a' <= c <= 'z') || ('\U{E0}' <= c <= '\U{FE}' && c != '\U{F7}') then [(c as int - 32) as char]
    else if c == '\U{DF}' then "SS"
    else if c == '\U{FF}' then ['\U{178}']
    else if c == '\U{B5}' then ['\U{39C}']
    else [c]
  }

  /** `s.lower()` */
  function Lower(s: string): (r: string)
    ensures |r| == |s|
    ensures forall k :: 0 <= k < |s| ==> r[k] == LowerChar(s[k])
  {
    if s == [] then [] else [LowerChar(s[0])] + Lower(s[1..])
  }

  /** `s.upper()` */
  function Upper(s: string): string
  {
    if s == [] then [] else UpperChar(s[0]) + Upper(s[1..])
  }

  lemma {:induction false} LowerConcat(x: string, y: string)
    ensures Lower(x + y) == Lower(x) + Lower(y)
  {
    var l := Lower(x + y);
    assert forall k :: 0 <= k < |x| ==> (x + y)[k] == x[k];
    assert forall k :: |x| <= k < |x + y| ==> (x + y)[k] == y[k - |x|];
  }

  /** `s.endswith(t)` */
  predicate EndsWith(s: string, t: string)
  {
    |t| <= |s| && s[|s| - |t|..] == t
  }
}
