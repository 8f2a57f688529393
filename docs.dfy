/**
 * The word-processing side: a document body, its tables (whose cells may hold further tables)
 * and the header and footer of each section, the walk that runs the document replacer over
 * every paragraph in them, and the walk that gathers the placeholder names they hold.
 */
module Docs {
  import opened Base
  import opened Tokens
  import opened Paragraphs
  import opened Walk

  /** A table cell holds paragraphs and, after them, nested tables. */
  datatype Cell = Cell(paragraphs: seq<Paragraph>, tables: seq<Table>)
  datatype TableRow = TableRow(cells: seq<Cell>)
  datatype Table = Table(rows: seq<TableRow>)

  /** The body, a header or a footer: paragraphs, then tables. */
  datatype Part = Part(paragraphs: seq<Paragraph>, tables: seq<Table>)
  /**
   * A section always has a header and a footer object (an empty one when the file defines none),
   * so the replacer's `if header:` and `if footer:` tests always pass.
   */
  datatype Section = Section(header: Part, footer: Part)
  datatype Doc = Doc(body: Part, sections: seq<Section>)

  // ---------------------------------------------------------------------
  // Visit lists
  // ---------------------------------------------------------------------

  /** A table's paragraphs, row by row and cell by cell, each cell's nested tables after its paragraphs. */
  function TableParas(t: Table): seq<Paragraph>
    decreases t
  {
    RowsParas(t.rows)
  }

  function RowsParas(rows: seq<TableRow>): seq<Paragraph>
    decreases rows
  {
    if rows == [] then [] else RowsParas(rows[..|rows| - 1]) + CellsParas(rows[|rows| - 1].cells)
  }

  function CellsParas(cells: seq<Cell>): seq<Paragraph>
    decreases cells
  {
    if cells == [] then [] else CellsParas(cells[..|cells| - 1]) + CellParas(cells[|cells| - 1])
  }

  function CellParas(c: Cell): seq<Paragraph>
    decreases c
  {
    c.paragraphs + TablesParas(c.tables)
  }

  function TablesParas(ts: seq<Table>): seq<Paragraph>
    decreases ts
  {
    if ts == [] then [] else TablesParas(ts[..|ts| - 1]) + TableParas(ts[|ts| - 1])
  }

  function RowParas(r: TableRow): seq<Paragraph>
  {
    CellsParas(r.cells)
  }

  lemma {:induction false} RowsFlat(rows: seq<TableRow>)
    ensures RowsParas(rows) == Flat(rows, RowParas)
    decreases |rows|
  {
    if rows != [] {
      RowsFlat(rows[..|rows| - 1]);
    }
  }

  lemma {:induction false} CellsFlat(cells: seq<Cell>)
    ensures CellsParas(cells) == Flat(cells, CellParas)
    decreases |cells|
  {
    if cells != [] {
      CellsFlat(cells[..|cells| - 1]);
    }
  }

  lemma {:induction false} TablesFlat(ts: seq<Table>)
    ensures TablesParas(ts) == Flat(ts, TableParas)
    decreases |ts|
  {
    if ts != [] {
      TablesFlat(ts[..|ts| - 1]);
    }
  }

  function PartParas(part: Part): seq<Paragraph>
  {
    part.paragraphs + TablesParas(part.tables)
  }

  function SectionParas(s: Section): seq<Paragraph>
  {
    PartParas(s.header) + PartParas(s.footer)
  }

  /** The body, then (when headers and footers are scanned) each section's header and footer. */
  function DocParas(doc: Doc, scanHeadersFooters: bool): seq<Paragraph>
  {
    PartParas(doc.body) + (if scanHeadersFooters then Flat(doc.sections, SectionParas) else [])
  }

  // ---------------------------------------------------------------------
  // Substitution
  // ---------------------------------------------------------------------

  /** `_docx_walk_table`: every row of the table in turn. */
  method ReplaceInTable(t: Table, m: Mapping, row: Row, fmt: Formatters)
    requires Distinct(TableParas(t))
    modifies TableParas(t)
    ensures forall p | p in TableParas(t) && old(allocated(p)) :: p.runs == NewRuns(Document, old(p.runs), m, row, fmt)
    decreases t
  {
    ghost var all := TableParas(t);
    var rows := t.rows;
    RowsFlat(rows);
    for i := 0 to |rows|
      invariant forall p | p in Flat(rows[..i], RowParas) && old(allocated(p)) :: p.runs == NewRuns(Document, old(p.runs), m, row, fmt)
      invariant forall p | p in all && p !in Flat(rows[..i], RowParas) && old(allocated(p)) :: p.runs == old(p.runs)
    {
      FlatPrefix(rows, RowParas, i);
      DistinctPiece(Flat(rows[..i], RowParas), RowParas(rows[i]), all);
      ReplaceInRow(rows[i], m, row, fmt);
    }
    FlatAll(rows, RowParas);
  }

  /** The cell loop of `_docx_walk_table`. */
  method ReplaceInRow(r: TableRow, m: Mapping, row: Row, fmt: Formatters)
    requires Distinct(RowParas(r))
    modifies RowParas(r)
    ensures forall p | p in RowParas(r) && old(allocated(p)) :: p.runs == NewRuns(Document, old(p.runs), m, row, fmt)
    decreases r
  {
    ghost var all := RowParas(r);
    var cells := r.cells;
    CellsFlat(cells);
    for i := 0 to |cells|
      invariant forall p | p in Flat(cells[..i], CellParas) && old(allocated(p)) :: p.runs == NewRuns(Document, old(p.runs), m, row, fmt)
      invariant forall p | p in all && p !in Flat(cells[..i], CellParas) && old(allocated(p)) :: p.runs == old(p.runs)
    {
      FlatPrefix(cells, CellParas, i);
      DistinctPiece(Flat(cells[..i], CellParas), CellParas(cells[i]), all);
      ReplaceInCell(cells[i], m, row, fmt);
    }
    FlatAll(cells, CellParas);
  }

  /** One cell of `_docx_walk_table`: its paragraphs, then its nested tables. */
  method ReplaceInCell(c: Cell, m: Mapping, row: Row, fmt: Formatters)
    requires Distinct(CellParas(c))
    modifies CellParas(c)
    ensures forall p | p in CellParas(c) && old(allocated(p)) :: p.runs == NewRuns(Document, old(p.runs), m, row, fmt)
    decreases c
  {
    ghost var all := CellParas(c);
    ghost var tp := TablesParas(c.tables);
    assert [] + c.paragraphs + tp == all;
    PrefixConcat([] + c.paragraphs, tp);
    PrefixConcat([] + c.paragraphs + tp, []);
    DistinctPiece([], c.paragraphs, all);
    DistinctPiece(c.paragraphs, tp, all);
    ReplaceEach(Document, c.paragraphs, m, row, fmt);
    ReplaceInTables(c.tables, m, row, fmt);
  }

  /** `for t in ...tables: _docx_walk_table(t, ...)` */
  method ReplaceInTables(ts: seq<Table>, m: Mapping, row: Row, fmt: Formatters)
    requires Distinct(TablesParas(ts))
    modifies TablesParas(ts)
    ensures forall p | p in TablesParas(ts) && old(allocated(p)) :: p.runs == NewRuns(Document, old(p.runs), m, row, fmt)
    decreases ts
  {
    ghost var all := TablesParas(ts);
    TablesFlat(ts);
    for i := 0 to |ts|
      invariant forall p | p in Flat(ts[..i], TableParas) && old(allocated(p)) :: p.runs == NewRuns(Document, old(p.runs), m, row, fmt)
      invariant forall p | p in all && p !in Flat(ts[..i], TableParas) && old(allocated(p)) :: p.runs == old(p.runs)
    {
      FlatPrefix(ts, TableParas, i);
      DistinctPiece(Flat(ts[..i], TableParas), TableParas(ts[i]), all);
      ReplaceInTable(ts[i], m, row, fmt);
    }
    FlatAll(ts, TableParas);
  }

  /** The body, a header or a footer in `replace_placeholders_docx`: paragraphs, then tables. */
  method ReplaceInPart(part: Part, m: Mapping, row: Row, fmt: Formatters)
    requires Distinct(PartParas(part))
    modifies PartParas(part)
    ensures forall p | p in PartParas(part) && old(allocated(p)) :: p.runs == NewRuns(Document, old(p.runs), m, row, fmt)
  {
    ghost var all := PartParas(part);
    ghost var tp := TablesParas(part.tables);
    assert [] + part.paragraphs + tp == all;
    PrefixConcat([] + part.paragraphs, tp);
    PrefixConcat([] + part.paragraphs + tp, []);
    DistinctPiece([], part.paragraphs, all);
    DistinctPiece(part.paragraphs, tp, all);
    ReplaceEach(Document, part.paragraphs, m, row, fmt);
    ReplaceInTables(part.tables, m, row, fmt);
  }

  /** One section: its header, then its footer. */
  method ReplaceInSection(s: Section, m: Mapping, row: Row, fmt: Formatters)
    requires Distinct(SectionParas(s))
    modifies SectionParas(s)
    ensures forall p | p in SectionParas(s) && old(allocated(p)) :: p.runs == NewRuns(Document, old(p.runs), m, row, fmt)
  {
    ghost var all := SectionParas(s);
    ghost var hp := PartParas(s.header);
    ghost var fp := PartParas(s.footer);
    assert [] + hp + fp == all;
    PrefixConcat([] + hp, fp);
    PrefixConcat([] + hp + fp, []);
    DistinctPiece([], hp, all);
    DistinctPiece(hp, fp, all);
    ReplaceInPart(s.header, m, row, fmt);
    ReplaceInPart(s.footer, m, row, fmt);
  }

  /**
   * The section loop of `replace_placeholders_docx`.  The paragraphs of all sections are taken
   * to be distinct: a header or footer linked to the previous section's, which the source visits
   * once per section, is outside this model.
   */
  method ReplaceInSections(sections: seq<Section>, m: Mapping, row: Row, fmt: Formatters)
    requires Distinct(Flat(sections, SectionParas))
    modifies Flat(sections, SectionParas)
    ensures forall p | p in Flat(sections, SectionParas) && old(allocated(p)) :: p.runs == NewRuns(Document, old(p.runs), m, row, fmt)
  {
    ghost var all := Flat(sections, SectionParas);
    for i := 0 to |sections|
      invariant forall p | p in Flat(sections[..i], SectionParas) && old(allocated(p)) :: p.runs == NewRuns(Document, old(p.runs), m, row, fmt)
      invariant forall p | p in all && p !in Flat(sections[..i], SectionParas) && old(allocated(p)) :: p.runs == old(p.runs)
    {
      FlatPrefix(sections, SectionParas, i);
      DistinctPiece(Flat(sections[..i], SectionParas), SectionParas(sections[i]), all);
      ReplaceInSection(sections[i], m, row, fmt);
    }
    FlatAll(sections, SectionParas);
  }

  /**
   * `replace_placeholders_docx`: every paragraph the walk visits, the body first and then (when
   * scanned) the headers and footers, now holds what the document replacer makes of the runs it
   * held; when headers and footers are not scanned their paragraphs keep their runs.  As in
   * `ReplaceInSections`, no paragraph may be reached twice, so linked headers and footers are
   * outside this model.
   */
  method ReplacePlaceholders(doc: Doc, m: Mapping, row: Row, fmt: Formatters, scanHeadersFooters: bool)
    requires Distinct(PartParas(doc.body) + Flat(doc.sections, SectionParas))
    modifies DocParas(doc, scanHeadersFooters)
    ensures forall p | p in DocParas(doc, scanHeadersFooters) && old(allocated(p)) :: p.runs == NewRuns(Document, old(p.runs), m, row, fmt)
    ensures !scanHeadersFooters ==> forall p | p in Flat(doc.sections, SectionParas) && old(allocated(p)) :: p.runs == old(p.runs)
  {
    ghost var bp := PartParas(doc.body);
    ghost var sp := Flat(doc.sections, SectionParas);
    assert [] + bp == bp;
    PrefixConcat(bp, sp);
    PrefixConcat(bp + sp, []);
    DistinctPiece([], bp, bp + sp);
    DistinctPiece(bp, sp, bp + sp);
    if scanHeadersFooters {
      assert DocParas(doc, scanHeadersFooters) == bp + sp;
    } else {
      assert bp + [] == bp;
      assert DocParas(doc, scanHeadersFooters) == bp;
    }
    ReplaceInPart(doc.body, m, row, fmt);
    if scanHeadersFooters {
      ReplaceInSections(doc.sections, m, row, fmt);
    }
  }

  // ---------------------------------------------------------------------
  // Discovery
  // ---------------------------------------------------------------------

  /**
   * `_docx_collect_tokens`: the names found in exactly the paragraphs the replacer visits (the
   * body, then the headers and footers when they are scanned), so preflight checks the
   * placeholders that substitution will meet.  The collector's loops and its inner `_walk_table`
   * are represented by the visit list `DocParas`, which lists the paragraphs they reach in the
   * order they reach them; the method runs one loop over that list.
   */
  method CollectTokens(doc: Doc, scanHeadersFooters: bool) returns (found: set<string>)
    ensures found == TokensOf(DocParas(doc, scanHeadersFooters))
  {
    var visit := DocParas(doc, scanHeadersFooters);
    found := CollectEach(visit, {});
  }
}
