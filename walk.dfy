/**
 * What the presentation and document walkers share: the list of paragraphs a walk visits,
 * the loop that runs the replacer over a list of paragraphs, and the loop that gathers the
 * placeholders of a list of paragraphs.
 *
 * A walk visits its paragraphs in a fixed order.  Every structure is described by the
 * sequence of paragraphs it holds in that order (its "visit list"); a walker is proved to run
 * the replacer exactly once on every paragraph of its visit list, which requires the list to
 * hold every paragraph once.
 */
module Walk {
  import opened Base
  import opened Strings
  import opened Tokens
  import opened Paragraphs

  /** No paragraph occurs twice in the list. */
  predicate Distinct(ps: seq<Paragraph>)
  {
    forall i, j :: 0 <= i < j < |ps| ==> ps[i] != ps[j]
  }

  predicate Prefix(a: seq<Paragraph>, b: seq<Paragraph>)
  {
    |a| <= |b| && b[..|a|] == a
  }

  lemma {:induction false} PrefixTrans(a: seq<Paragraph>, b: seq<Paragraph>, c: seq<Paragraph>)
    requires Prefix(a, b) && Prefix(b, c)
    ensures Prefix(a, c)
  {
    assert c[..|a|] == c[..|b|][..|a|];
  }

  lemma {:induction false} PrefixConcat(a: seq<Paragraph>, b: seq<Paragraph>)
    ensures Prefix(a, a + b)
  {
    assert (a + b)[..|a|] == a;
  }

  /**
   * Inside a list without repetitions, the piece `b` that follows a prefix `a` has no
   * repetitions, lies inside the list and shares no paragraph with `a`.
   */
  lemma {:induction false} DistinctPiece(a: seq<Paragraph>, b: seq<Paragraph>, all: seq<Paragraph>)
    requires Prefix(a + b, all) && Distinct(all)
    ensures Distinct(b)
    ensures forall p :: p in b ==> p in all && p !in a
    ensures forall j :: 0 <= j < |b| ==> b[j] in all
  {
    var ab := a + b;
    assert all[..|ab|] == ab;
    forall i, j | 0 <= i < j < |b| ensures b[i] != b[j] {
      assert b[i] == all[|a| + i] && b[j] == all[|a| + j];
    }
    forall p | p in b ensures p in all && p !in a {
      var j :| 0 <= j < |b| && b[j] == p;
      assert all[|a| + j] == p;
      forall k | 0 <= k < |a| ensures a[k] != p {
        assert all[k] == a[k];
      }
    }
  }

  /** The visit list of a sequence of parts, part by part. */
  function Flat<T>(xs: seq<T>, g: T -> seq<Paragraph>): seq<Paragraph>
  {
    if xs == [] then [] else Flat(xs[..|xs| - 1], g) + g(xs[|xs| - 1])
  }

  /** The paragraphs of the parts before `i` followed by those of part `i` start the whole visit list. */
  lemma {:induction false} FlatPrefix<T>(xs: seq<T>, g: T -> seq<Paragraph>, i: nat)
    requires i < |xs|
    ensures Flat(xs[..i + 1], g) == Flat(xs[..i], g) + g(xs[i])
    ensures Prefix(Flat(xs[..i], g) + g(xs[i]), Flat(xs, g))
    decreases |xs|
  {
    assert xs[..i + 1][..i] == xs[..i];
    if i + 1 == |xs| {
      assert xs[..i + 1] == xs;
    } else {
      var init := xs[..|xs| - 1];
      assert init[..i + 1] == xs[..i + 1] && init[..i] == xs[..i] && init[i] == xs[i];
      FlatPrefix(init, g, i);
      PrefixConcat(Flat(init, g), g(xs[|xs| - 1]));
      PrefixTrans(Flat(xs[..i], g) + g(xs[i]), Flat(init, g), Flat(xs, g));
    }
  }

  lemma {:induction false} FlatAll<T>(xs: seq<T>, g: T -> seq<Paragraph>)
    ensures Flat(xs[..|xs|], g) == Flat(xs, g)
  {
    assert xs[..|xs|] == xs;
  }

  // ---------------------------------------------------------------------
  // Replacing over a list of paragraphs
  // ---------------------------------------------------------------------

  /**
   * `for p in paragraphs: replace_in_paragraph(p, mapping, rowdict)`, for either kind of file:
   * every paragraph of the list now holds what the replacer makes of the runs it held before.
   */
  method ReplaceEach(fl: Flavor, ps: seq<Paragraph>, m: Mapping, row: Row, fmt: Formatters)
    requires Distinct(ps)
    modifies ps
    ensures forall p :: p in ps ==> p.runs == NewRuns(fl, old(p.runs), m, row, fmt)
  {
    for i := 0 to |ps|
      invariant forall k :: 0 <= k < i ==> ps[k].runs == NewRuns(fl, old(ps[k].runs), m, row, fmt)
      invariant forall k :: i <= k < |ps| ==> ps[k].runs == old(ps[k].runs)
    {
      match fl
      case Presentation => ReplaceInPresentationParagraph(ps[i], m, row, fmt);
      case Document => ReplaceInDocumentParagraph(ps[i], m, row, fmt);
    }
  }

  // ---------------------------------------------------------------------
  // Collecting over a list of paragraphs
  // ---------------------------------------------------------------------

  /** `_collect_paragraph`: the names the discovery pattern finds in one paragraph's text. */
  function ParagraphTokens(p: Paragraph): set<string>
    reads p
  {
    Discover(Text(p.runs))
  }

  /** The union of `f` over a list. */
  function Gather<T>(xs: seq<T>, f: T -> set<string>): set<string>
  {
    if xs == [] then {} else Gather(xs[..|xs| - 1], f) + f(xs[|xs| - 1])
  }

  /** A name is in the union exactly when one of the elements gives it. */
  lemma {:induction false} GatherMember<T>(xs: seq<T>, f: T -> set<string>, t: string)
    ensures t in Gather(xs, f) <==> exists k :: 0 <= k < |xs| && t in f(xs[k])
    decreases |xs|
  {
    if xs != [] {
      var n := |xs| - 1;
      var init := xs[..n];
      GatherMember(init, f, t);
      if t in Gather(init, f) {
        var k :| 0 <= k < n && t in f(init[k]);
        assert init[k] == xs[k];
      }
      if exists k :: 0 <= k < |xs| && t in f(xs[k]) {
        var k :| 0 <= k < |xs| && t in f(xs[k]);
        if k < n {
          assert init[k] == xs[k];
        }
      }
    }
  }

  lemma {:induction false} GatherConcat<T>(a: seq<T>, b: seq<T>, f: T -> set<string>)
    ensures Gather(a + b, f) == Gather(a, f) + Gather(b, f)
    decreases |b|
  {
    if b == [] {
      assert a + b == a;
    } else {
      var n := |b| - 1;
      assert (a + b)[..|a + b| - 1] == a + b[..n];
      GatherConcat(a, b[..n], f);
    }
  }

  /** The texts of the paragraphs, in order. */
  function Texts(ps: seq<Paragraph>): (r: seq<string>)
    reads ps
    ensures |r| == |ps| && forall k :: 0 <= k < |ps| ==> r[k] == Text(ps[k].runs)
  {
    if ps == [] then [] else Texts(ps[..|ps| - 1]) + [Text(ps[|ps| - 1].runs)]
  }

  /** The names the discovery pattern finds in the paragraphs' texts. */
  function TokensOf(ps: seq<Paragraph>): set<string>
    reads ps
  {
    Gather(Texts(ps), Discover)
  }

  /** Gathering over two lists is gathering over each. */
  lemma {:induction false} TokensOfConcat(a: seq<Paragraph>, b: seq<Paragraph>)
    ensures TokensOf(a + b) == TokensOf(a) + TokensOf(b)
  {
    assert Texts(a + b) == Texts(a) + Texts(b);
    GatherConcat(Texts(a), Texts(b), Discover);
  }

  /** A name is gathered exactly when it is discovered in one of the paragraphs. */
  lemma {:induction false} TokensOfMember(ps: seq<Paragraph>, t: string)
    ensures t in TokensOf(ps) <==> exists k :: 0 <= k < |ps| && t in ParagraphTokens(ps[k])
  {
    var texts := Texts(ps);
    GatherMember(texts, Discover, t);
    if exists k :: 0 <= k < |ps| && t in ParagraphTokens(ps[k]) {
      var k :| 0 <= k < |ps| && t in ParagraphTokens(ps[k]);
      assert t in Discover(texts[k]);
    }
  }

  /** One more paragraph adds the names discovered in its text. */
  lemma TokensOfStep(ps: seq<Paragraph>, i: nat)
    requires i < |ps|
    ensures TokensOf(ps[..i + 1]) == TokensOf(ps[..i]) + Discover(Text(ps[i].runs))
  {
    assert ps[..i + 1] == ps[..i] + [ps[i]];
    TokensOfConcat(ps[..i], [ps[i]]);
    assert Texts([ps[i]]) == [] + [Text(ps[i].runs)];
  }

  /** `for p in paragraphs: _collect_paragraph(p)`, adding to `found`. */
  method CollectEach(ps: seq<Paragraph>, found0: set<string>) returns (found: set<string>)
    ensures found == found0 + TokensOf(ps)
  {
    found := found0;
    for i := 0 to |ps|
      invariant found == found0 + TokensOf(ps[..i])
    {
      found := found + Discover(Text(ps[i].runs));
      TokensOfStep(ps, i);
    }
    assert ps[..|ps|] == ps;
  }
}
