/**
 * The presentation side: the shape tree of slide masters, layouts and slides, the walk that
 * runs the presentation replacer over every paragraph in it, and the walk that gathers the
 * placeholder names it holds.
 */
module Slides {
  import opened Base
  import opened Tokens
  import opened Paragraphs
  import opened Walk

  datatype TextFrame = TextFrame(paragraphs: seq<Paragraph>)
  datatype Cell = Cell(frame: Option<TextFrame>)
  datatype TableRow = TableRow(cells: seq<Cell>)
  datatype Table = Table(rows: seq<TableRow>)

  /** A shape may carry a text frame and a table; a group shape also holds child shapes. */
  datatype Shape = Shape(frame: Option<TextFrame>, table: Option<Table>, isGroup: bool, children: seq<Shape>)

  datatype Slide = Slide(shapes: seq<Shape>, notes: Option<TextFrame>)
  datatype Layout = Layout(shapes: seq<Shape>)
  datatype Master = Master(shapes: seq<Shape>, layouts: seq<Layout>)
  datatype Deck = Deck(masters: seq<Master>, slides: seq<Slide>)

  // ---------------------------------------------------------------------
  // Visit lists
  // ---------------------------------------------------------------------

  function FrameParas(f: Option<TextFrame>): seq<Paragraph>
  {
    if f.Some? then f.value.paragraphs else []
  }

  function CellParas(c: Cell): seq<Paragraph>
  {
    FrameParas(c.frame)
  }

  /** `_pptx_iter_table_cells`: the cells of a table, row by row. */
  function TableCells(t: Table): seq<Cell>
  {
    RowsCells(t.rows)
  }

  function RowsCells(rows: seq<TableRow>): seq<Cell>
  {
    if rows == [] then [] else RowsCells(rows[..|rows| - 1]) + rows[|rows| - 1].cells
  }

  function TableParas(t: Table): seq<Paragraph>
  {
    Flat(TableCells(t), CellParas)
  }

  /** The paragraphs of a table that may be absent. */
  function OptTableParas(t: Option<Table>): seq<Paragraph>
  {
    if t.Some? then TableParas(t.value) else []
  }

  /** The paragraphs a shape holds itself: its text frame, then its table's cells. */
  function OwnParas(s: Shape): seq<Paragraph>
  {
    FrameParas(s.frame) + OptTableParas(s.table)
  }

  /** A shape's paragraphs: its own, then (for a group) those of its children. */
  function ShapeParas(s: Shape): seq<Paragraph>
    decreases s
  {
    OwnParas(s) + (if s.isGroup then ShapesParas(s.children) else [])
  }

  function ShapesParas(ss: seq<Shape>): seq<Paragraph>
    decreases ss
  {
    if ss == [] then [] else ShapesParas(ss[..|ss| - 1]) + ShapeParas(ss[|ss| - 1])
  }

  /** The shapes before `i` followed by shape `i` start the visit list of all the shapes. */
  lemma {:induction false} ShapesParasPrefix(ss: seq<Shape>, i: nat)
    requires i < |ss|
    ensures ShapesParas(ss[..i + 1]) == ShapesParas(ss[..i]) + ShapeParas(ss[i])
    ensures Prefix(ShapesParas(ss[..i]) + ShapeParas(ss[i]), ShapesParas(ss))
    decreases |ss|
  {
    assert ss[..i + 1][..i] == ss[..i];
    if i + 1 == |ss| {
      assert ss[..i + 1] == ss;
    } else {
      var init := ss[..|ss| - 1];
      assert init[..i + 1] == ss[..i + 1] && init[..i] == ss[..i] && init[i] == ss[i];
      ShapesParasPrefix(init, i);
      PrefixConcat(ShapesParas(init), ShapeParas(ss[|ss| - 1]));
      PrefixTrans(ShapesParas(ss[..i]) + ShapeParas(ss[i]), ShapesParas(init), ShapesParas(ss));
    }
  }

  function SlideParas(s: Slide): seq<Paragraph>
  {
    ShapesParas(s.shapes) + FrameParas(s.notes)
  }

  function LayoutParas(l: Layout): seq<Paragraph>
  {
    ShapesParas(l.shapes)
  }

  function MasterParas(m: Master): seq<Paragraph>
  {
    ShapesParas(m.shapes) + Flat(m.layouts, LayoutParas)
  }

  /** Masters (with their layouts) when they are scanned, then the slides. */
  function DeckParas(d: Deck, scanMasters: bool): seq<Paragraph>
  {
    (if scanMasters then Flat(d.masters, MasterParas) else []) + Flat(d.slides, SlideParas)
  }

  // ---------------------------------------------------------------------
  // Substitution
  // ---------------------------------------------------------------------

  /** The table part of `_pptx_walk_shapes`: every cell with a text frame, row by row. */
  method ReplaceInTable(t: Table, m: Mapping, row: Row, fmt: Formatters)
    requires Distinct(TableParas(t))
    modifies TableParas(t)
    ensures forall p | p in TableParas(t) && old(allocated(p)) :: p.runs == NewRuns(Presentation, old(p.runs), m, row, fmt)
  {
    ghost var all := TableParas(t);
    var cells := TableCells(t);
    for i := 0 to |cells|
      invariant forall p | p in Flat(cells[..i], CellParas) && old(allocated(p)) :: p.runs == NewRuns(Presentation, old(p.runs), m, row, fmt)
      invariant forall p | p in all && p !in Flat(cells[..i], CellParas) && old(allocated(p)) :: p.runs == old(p.runs)
    {
      FlatPrefix(cells, CellParas, i);
      DistinctPiece(Flat(cells[..i], CellParas), CellParas(cells[i]), all);
      if cells[i].frame.Some? {
        ReplaceEach(Presentation, cells[i].frame.value.paragraphs, m, row, fmt);
      }
    }
    FlatAll(cells, CellParas);
  }

  /** What a shape holds itself in `_pptx_walk_shapes`: its text frame, then its table. */
  method ReplaceInOwn(s: Shape, m: Mapping, row: Row, fmt: Formatters)
    requires Distinct(OwnParas(s))
    modifies OwnParas(s)
    ensures forall p | p in OwnParas(s) && old(allocated(p)) :: p.runs == NewRuns(Presentation, old(p.runs), m, row, fmt)
  {
    ghost var all := OwnParas(s);
    ghost var fp := FrameParas(s.frame);
    ghost var tp := OptTableParas(s.table);
    assert [] + fp + tp == all;
    PrefixConcat([] + fp, tp);
    PrefixConcat([] + fp + tp, []);
    DistinctPiece([], fp, all);
    DistinctPiece(fp, tp, all);
    if s.frame.Some? {
      ReplaceEach(Presentation, s.frame.value.paragraphs, m, row, fmt);
    }
    if s.table.Some? {
      ReplaceInTable(s.table.value, m, row, fmt);
    }
  }

  /** One shape of `_pptx_walk_shapes`: what it holds itself, and for a group its children. */
  method ReplaceInShape(s: Shape, m: Mapping, row: Row, fmt: Formatters)
    requires Distinct(ShapeParas(s))
    modifies ShapeParas(s)
    ensures forall p | p in ShapeParas(s) && old(allocated(p)) :: p.runs == NewRuns(Presentation, old(p.runs), m, row, fmt)
    decreases s, 1
  {
    ghost var all := ShapeParas(s);
    ghost var op := OwnParas(s);
    ghost var gp := if s.isGroup then ShapesParas(s.children) else [];
    assert [] + op + gp == all;
    PrefixConcat([] + op, gp);
    PrefixConcat([] + op + gp, []);
    DistinctPiece([], op, all);
    DistinctPiece(op, gp, all);
    ReplaceInOwn(s, m, row, fmt);
    if s.isGroup {
      ReplaceInShapes(s.children, m, row, fmt);
    }
  }

  /** `_pptx_walk_shapes` */
  method ReplaceInShapes(ss: seq<Shape>, m: Mapping, row: Row, fmt: Formatters)
    requires Distinct(ShapesParas(ss))
    modifies ShapesParas(ss)
    ensures forall p | p in ShapesParas(ss) && old(allocated(p)) :: p.runs == NewRuns(Presentation, old(p.runs), m, row, fmt)
    decreases ss, 0
  {
    ghost var all := ShapesParas(ss);
    for i := 0 to |ss|
      invariant forall p | p in ShapesParas(ss[..i]) && old(allocated(p)) :: p.runs == NewRuns(Presentation, old(p.runs), m, row, fmt)
      invariant forall p | p in all && p !in ShapesParas(ss[..i]) && old(allocated(p)) :: p.runs == old(p.runs)
    {
      ShapesParasPrefix(ss, i);
      DistinctPiece(ShapesParas(ss[..i]), ShapeParas(ss[i]), all);
      ReplaceInShape(ss[i], m, row, fmt);
    }
    assert ss[..|ss|] == ss;
  }

  /** One slide of `_pptx_replace_on_slides`: its shapes, then its notes. */
  method ReplaceOnSlide(slide: Slide, m: Mapping, row: Row, fmt: Formatters)
    requires Distinct(SlideParas(slide))
    modifies SlideParas(slide)
    ensures forall p | p in SlideParas(slide) && old(allocated(p)) :: p.runs == NewRuns(Presentation, old(p.runs), m, row, fmt)
  {
    ghost var all := SlideParas(slide);
    ghost var sp := ShapesParas(slide.shapes);
    ghost var np := FrameParas(slide.notes);
    assert [] + sp + np == all;
    PrefixConcat([] + sp, np);
    PrefixConcat([] + sp + np, []);
    DistinctPiece([], sp, all);
    DistinctPiece(sp, np, all);
    ReplaceInShapes(slide.shapes, m, row, fmt);
    if slide.notes.Some? {
      ReplaceEach(Presentation, slide.notes.value.paragraphs, m, row, fmt);
    }
  }

  /** `_pptx_replace_on_slides` */
  method ReplaceOnSlides(slides: seq<Slide>, m: Mapping, row: Row, fmt: Formatters)
    requires Distinct(Flat(slides, SlideParas))
    modifies Flat(slides, SlideParas)
    ensures forall p | p in Flat(slides, SlideParas) && old(allocated(p)) :: p.runs == NewRuns(Presentation, old(p.runs), m, row, fmt)
  {
    ghost var all := Flat(slides, SlideParas);
    for i := 0 to |slides|
      invariant forall p | p in Flat(slides[..i], SlideParas) && old(allocated(p)) :: p.runs == NewRuns(Presentation, old(p.runs), m, row, fmt)
      invariant forall p | p in all && p !in Flat(slides[..i], SlideParas) && old(allocated(p)) :: p.runs == old(p.runs)
    {
      FlatPrefix(slides, SlideParas, i);
      DistinctPiece(Flat(slides[..i], SlideParas), SlideParas(slides[i]), all);
      ReplaceOnSlide(slides[i], m, row, fmt);
    }
    FlatAll(slides, SlideParas);
  }

  /** The layout loop inside `_pptx_replace_on_masters`. */
  method ReplaceOnLayouts(layouts: seq<Layout>, m: Mapping, row: Row, fmt: Formatters)
    requires Distinct(Flat(layouts, LayoutParas))
    modifies Flat(layouts, LayoutParas)
    ensures forall p | p in Flat(layouts, LayoutParas) && old(allocated(p)) :: p.runs == NewRuns(Presentation, old(p.runs), m, row, fmt)
  {
    ghost var all := Flat(layouts, LayoutParas);
    for i := 0 to |layouts|
      invariant forall p | p in Flat(layouts[..i], LayoutParas) && old(allocated(p)) :: p.runs == NewRuns(Presentation, old(p.runs), m, row, fmt)
      invariant forall p | p in all && p !in Flat(layouts[..i], LayoutParas) && old(allocated(p)) :: p.runs == old(p.runs)
    {
      FlatPrefix(layouts, LayoutParas, i);
      DistinctPiece(Flat(layouts[..i], LayoutParas), LayoutParas(layouts[i]), all);
      ReplaceInShapes(layouts[i].shapes, m, row, fmt);
    }
    FlatAll(layouts, LayoutParas);
  }

  /** One master of `_pptx_replace_on_masters`: its shapes, then its layouts' shapes. */
  method ReplaceOnMaster(master: Master, m: Mapping, row: Row, fmt: Formatters)
    requires Distinct(MasterParas(master))
    modifies MasterParas(master)
    ensures forall p | p in MasterParas(master) && old(allocated(p)) :: p.runs == NewRuns(Presentation, old(p.runs), m, row, fmt)
  {
    ghost var all := MasterParas(master);
    ghost var sp := ShapesParas(master.shapes);
    ghost var lp := Flat(master.layouts, LayoutParas);
    assert [] + sp + lp == all;
    PrefixConcat([] + sp, lp);
    PrefixConcat([] + sp + lp, []);
    DistinctPiece([], sp, all);
    DistinctPiece(sp, lp, all);
    ReplaceInShapes(master.shapes, m, row, fmt);
    ReplaceOnLayouts(master.layouts, m, row, fmt);
  }

  /** `_pptx_replace_on_masters` */
  method ReplaceOnMasters(masters: seq<Master>, m: Mapping, row: Row, fmt: Formatters)
    requires Distinct(Flat(masters, MasterParas))
    modifies Flat(masters, MasterParas)
    ensures forall p | p in Flat(masters, MasterParas) && old(allocated(p)) :: p.runs == NewRuns(Presentation, old(p.runs), m, row, fmt)
  {
    ghost var all := Flat(masters, MasterParas);
    for i := 0 to |masters|
      invariant forall p | p in Flat(masters[..i], MasterParas) && old(allocated(p)) :: p.runs == NewRuns(Presentation, old(p.runs), m, row, fmt)
      invariant forall p | p in all && p !in Flat(masters[..i], MasterParas) && old(allocated(p)) :: p.runs == old(p.runs)
    {
      FlatPrefix(masters, MasterParas, i);
      DistinctPiece(Flat(masters[..i], MasterParas), MasterParas(masters[i]), all);
      ReplaceOnMaster(masters[i], m, row, fmt);
    }
    FlatAll(masters, MasterParas);
  }

  /**
   * `replace_placeholders_pptx`: every paragraph the walk visits, masters (when scanned) first and
   * then the slides, now holds what the replacer makes of the runs it held; when masters are not
   * scanned their paragraphs keep their runs.
   */
  method ReplacePlaceholders(d: Deck, m: Mapping, row: Row, fmt: Formatters, scanMasters: bool)
    requires Distinct(Flat(d.masters, MasterParas) + Flat(d.slides, SlideParas))
    modifies DeckParas(d, scanMasters)
    ensures forall p | p in DeckParas(d, scanMasters) && old(allocated(p)) :: p.runs == NewRuns(Presentation, old(p.runs), m, row, fmt)
    ensures !scanMasters ==> forall p | p in Flat(d.masters, MasterParas) && old(allocated(p)) :: p.runs == old(p.runs)
  {
    ghost var mp := Flat(d.masters, MasterParas);
    ghost var sp := Flat(d.slides, SlideParas);
    assert [] + mp == mp;
    PrefixConcat(mp, sp);
    PrefixConcat(mp + sp, []);
    DistinctPiece([], mp, mp + sp);
    DistinctPiece(mp, sp, mp + sp);
    if scanMasters {
      assert DeckParas(d, scanMasters) == mp + sp;
      ReplaceOnMasters(d.masters, m, row, fmt);
    } else {
      assert DeckParas(d, scanMasters) == sp;
    }
    ReplaceOnSlides(d.slides, m, row, fmt);
  }

  // ---------------------------------------------------------------------
  // Discovery
  // ---------------------------------------------------------------------

  /**
   * `_pptx_collect_tokens`: the names found in exactly the paragraphs the replacer visits (masters
   * and layouts when they are scanned, then every slide's shapes and notes), so preflight checks
   * the placeholders that substitution will meet.  The collector's nested loops and its inner
   * `_walk` are represented by the visit list `DeckParas`, which lists the paragraphs they reach
   * in the order they reach them; the method runs one loop over that list.
   */
  method CollectTokens(d: Deck, scanMasters: bool) returns (found: set<string>)
    ensures found == TokensOf(DeckParas(d, scanMasters))
  {
    var visit := DeckParas(d, scanMasters);
    found := CollectEach(visit, {});
  }
}
