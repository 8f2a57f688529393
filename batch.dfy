/**
 * The spreadsheet-driven batch: the file-name sanitiser, template resolution, the preflight
 * comparison of template placeholders with spreadsheet columns, and the loop that decides,
 * row by row, what happens and records exactly one result per row.
 *
 * The file system, the filename pattern, template reading and rendering are outside the model;
 * they enter as functions that say how each of those calls ends.
 */
module Batch {
  import opened Base
  import opened Strings
  import opened Tokens
  import opened Paragraphs
  import opened Paths

  // ---------------------------------------------------------------------
  // File names
  // ---------------------------------------------------------------------

  /** The characters `_sanitize_filename` replaces. */
  const BadChars: string := "<>:\"/\\|?*"

  /** `for ch in bad: s = s.replace(ch, "_")` */
  function ReplaceBad(s: string, bad: string): string
    decreases |bad|
  {
    if bad == [] then s else ReplaceBad(ReplaceAll(s, [bad[0]], "_"), bad[1..])
  }

  /** `_sanitize_filename` */
  function SanitizeFilename(s: string): string
  {
    Strip(ReplaceBad(s, BadChars))
  }

  /** Every character of `bad` replaced by `_`, position by position. */
  function Masked(s: string, bad: string): (r: string)
    ensures |r| == |s|
    ensures forall k :: 0 <= k < |s| ==> r[k] == if s[k] in bad then '_' else s[k]
  {
    if s == [] then [] else [if s[0] in bad then '_' else s[0]] + Masked(s[1..], bad)
  }

  /** Replacing one character by `_` masks exactly that character. */
  lemma {:induction false} ReplaceOneMasks(s: string, c: char)
    ensures ReplaceAll(s, [c], "_") == Masked(s, [c])
    decreases |s|
  {
    if s != [] {
      ReplaceOneMasks(s[1..], c);
      assert s[..1] == [s[0]];
    }
  }

  /** Replacing the characters one after the other masks all of them at once, since `_` is not among them. */
  lemma {:induction false} ReplaceBadMasks(s: string, bad: string)
    requires '_' !in bad
    ensures ReplaceBad(s, bad) == Masked(s, bad)
    decreases |bad|
  {
    if bad != [] {
      var rest := bad[1..];
      var m := Masked(s, [bad[0]]);
      ReplaceOneMasks(s, bad[0]);
      ReplaceBadMasks(m, rest);
      assert forall x :: x in bad <==> x == bad[0] || x in rest;
      assert Masked(m, rest) == Masked(s, bad);
    }
  }

  predicate NoBadChar(s: string)
  {
    forall k :: 0 <= k < |s| ==> s[k] !in BadChars
  }

  /** A masked text holds none of the masked characters. */
  lemma MaskedClean(s: string)
    ensures NoBadChar(Masked(s, BadChars))
  {
  }

  /** A piece of a text without unsafe characters has none either. */
  lemma SliceClean(s: string, a: nat, b: nat)
    requires NoBadChar(s) && a <= b <= |s|
    ensures NoBadChar(s[a..b])
  {
    assert forall k :: 0 <= k < b - a ==> s[a..b][k] == s[a + k];
  }

  /** A text without unsafe characters is its own mask. */
  lemma CleanMasked(s: string)
    requires NoBadChar(s)
    ensures Masked(s, BadChars) == s
  {
  }

  /**
   * A sanitised name holds none of the unsafe characters (in particular no `/` or `\`, so it
   * names one file), has no whitespace at either end, and sanitising it again changes nothing.
   */
  lemma {:induction false} SanitizeSafe(s: string)
    ensures NoBadChar(SanitizeFilename(s)) && '/' !in SanitizeFilename(s) && '\\' !in SanitizeFilename(s)
    ensures Strip(SanitizeFilename(s)) == SanitizeFilename(s)
    ensures SanitizeFilename(SanitizeFilename(s)) == SanitizeFilename(s)
  {
    var m := Masked(s, BadChars);
    ReplaceBadMasks(s, BadChars);
    MaskedClean(s);
    var a, b := StripParts(m);
    var r := SanitizeFilename(s);
    assert r == m[a..b];
    SliceClean(m, a, b);
    NoSlash(r);
    StripIdempotent(m);
    ReplaceBadMasks(r, BadChars);
    CleanMasked(r);
  }

  /** Neither separator is among the characters of a clean text. */
  lemma NoSlash(r: string)
    requires NoBadChar(r)
    ensures '/' !in r && '\\' !in r
  {
    forall k | 0 <= k < |r|
      ensures r[k] != '/' && r[k] != '\\'
    {
      assert r[k] !in BadChars;
    }
  }

  /** A name that is already safe and trimmed is kept as it is. */
  lemma {:induction false} SanitizeKeepsSafe(s: string)
    requires NoBadChar(s) && Strip(s) == s
    ensures SanitizeFilename(s) == s
  {
    ReplaceBadMasks(s, BadChars);
    CleanMasked(s);
  }

  /** The output file name: the sanitised name, with `.pdf` added unless it already ends so (in any case). */
  function PdfName(name: string): string
  {
    if EndsWith(Lower(name), ".pdf") then name else name + ".pdf"
  }

  lemma PdfLower()
    ensures Lower(".pdf") == ".pdf"
  {
    assert Lower(".pdf")[1] == 'p';
  }

  /** The name ends in `.pdf` (in any case), starts with the given name, and adding the suffix twice changes nothing. */
  lemma {:induction false} PdfNameEnds(name: string)
    ensures EndsWith(Lower(PdfName(name)), ".pdf")
    ensures |name| <= |PdfName(name)| && PdfName(name)[..|name|] == name
    ensures PdfName(PdfName(name)) == PdfName(name)
    ensures EndsWith(Lower(name), ".pdf") ==> PdfName(name) == name
  {
    if !EndsWith(Lower(name), ".pdf") {
      LowerConcat(name, ".pdf");
      PdfLower();
      var l := Lower(name + ".pdf");
      assert l == Lower(name) + ".pdf";
      assert l[|l| - 4..] == ".pdf";
      assert (name + ".pdf")[..|name|] == name;
    }
  }

  // ---------------------------------------------------------------------
  // Template resolution
  // ---------------------------------------------------------------------

  datatype ResolveError = EmptyTemplate | NotAFileName(name: string) | TemplateNotFound(path: string)

  /**
   * `_resolve_template_path`: the trimmed TEMPLATE cell, or the default template when the cell is
   * blank (an empty `defaultTemplate` stands for "none configured"), must be a bare file name and
   * must exist in the template directory.
   */
  function ResolveTemplate(cell: string, defaultTemplate: string, templateDir: string, fileExists: string -> bool)
    : Result<string, ResolveError>
  {
    var stripped := Strip(cell);
    if stripped == "" && defaultTemplate == "" then Err(EmptyTemplate)
    else
      var name := if stripped == "" then defaultTemplate else stripped;
      if '/' in name || '\\' in name then Err(NotAFileName(name))
      else
        var path := Child(templateDir, name);
        if !fileExists(path) then Err(TemplateNotFound(path)) else Ok(path)
  }

  /**
   * Resolution succeeds exactly when the name in use (the trimmed cell or, for a blank cell, the
   * default) is non-empty, holds no `/` or `\\`, and names an existing file directly inside the
   * template directory; that file is the result.  Each failure has its own error: an empty name,
   * a name with a directory separator, or a missing file.
   */
  lemma {:induction false} ResolveTemplateSound(cell: string, defaultTemplate: string, templateDir: string, fileExists: string -> bool)
    ensures var r := ResolveTemplate(cell, defaultTemplate, templateDir, fileExists);
      var name := if Strip(cell) == "" then defaultTemplate else Strip(cell);
      (r.Ok? <==> name != "" && '/' !in name && '\\' !in name && fileExists(Child(templateDir, name)))
      && (r.Ok? ==> r.value == Child(templateDir, name) && Name(r.value) == name)
      && (r == Err(EmptyTemplate) <==> name == "")
      && (r == Err(NotAFileName(name)) <==> name != "" && ('/' in name || '\\' in name))
      && (r == Err(TemplateNotFound(Child(templateDir, name)))
          <==> name != "" && '/' !in name && '\\' !in name && !fileExists(Child(templateDir, name)))
  {
    var name := if Strip(cell) == "" then defaultTemplate else Strip(cell);
    if '/' !in name {
      ChildName(templateDir, name);
    }
  }

  // ---------------------------------------------------------------------
  // Preflight
  // ---------------------------------------------------------------------

  /** The sets preflight reports. */
  datatype Report = Report(excelCols: set<string>, baseTokens: set<string>, missingCols: set<string>, unusedCols: set<string>)

  /**
   * The preflight set arithmetic: the spreadsheet columns other than TEMPLATE, the base names of
   * the placeholders found, the base names without a column and the columns no placeholder uses.
   */
  function ReportOf(columns: seq<string>, rawTokens: set<string>): (r: Report)
    ensures r.missingCols !! r.excelCols && r.unusedCols !! r.baseTokens
    ensures r.missingCols + (r.baseTokens * r.excelCols) == r.baseTokens
    ensures r.unusedCols + (r.excelCols * r.baseTokens) == r.excelCols
    ensures forall c :: c in r.excelCols <==> c in columns && !IsTemplateColumn(c)
    ensures forall t :: t in r.baseTokens <==> exists raw :: raw in rawTokens && BaseName(raw) == t
  {
    var excel := set c | c in columns && !IsTemplateColumn(c);
    var base := set t | t in rawTokens :: BaseName(t);
    Report(excel, base, set t | t in base && t !in excel, set c | c in excel && c !in base)
  }

  /**
   * When preflight reports no missing column, every placeholder found reads an existing column
   * of any row with the spreadsheet's columns: evaluation never falls back to the empty value of
   * an absent column.
   */
  lemma {:induction false} CleanPreflightFindsColumns(columns: seq<string>, rawTokens: set<string>, row: Row, raw: string)
    requires ReportOf(columns, rawTokens).missingCols == {}
    requires forall c :: c in columns ==> exists k :: 0 <= k < |row| && row[k].0 == c
    requires raw in rawTokens
    ensures exists k :: 0 <= k < |row| && row[k] == (ColumnOf(raw), Lookup(row, ColumnOf(raw)))
  {
    var r := ReportOf(columns, rawTokens);
    ColumnIsBaseName(raw);
    assert BaseName(raw) in r.baseTokens;
    assert BaseName(raw) in r.excelCols;
    LookupPresent(row, ColumnOf(raw));
  }

  /** The templates preflight reads: the trimmed TEMPLATE cells, or the default template when there are none. */
  function UsedTemplates(templateCells: seq<string>, defaultTemplate: string): set<string>
  {
    var used := set c | c in templateCells :: Strip(c);
    if used == {} && defaultTemplate != "" then {defaultTemplate} else used
  }

  /** Settings of the batch that the model needs (`""` for an unset default template). */
  datatype Config = Config(defaultTemplate: string, templateDir: string, outputDir: string, dryRun: bool, strict: bool)

  /**
   * How the outside world answers: whether a path exists, the placeholders a template file
   * holds (None when it cannot be converted or read), the output name the filename pattern gives
   * for a row (None when the pattern names a missing column), and how rendering a row ends.
   */
  datatype RenderOutcome = Rendered(bytes: nat) | RenderError(error: string)
  datatype World = World(
    fileExists: string -> bool,
    templateTokens: string -> Option<set<string>>,
    fileName: (Row, int) -> Option<string>,
    render: int -> RenderOutcome)

  /** Why a batch stops before its first row. */
  datatype Abort =
    | MissingRequiredColumns(cols: seq<string>)
    | TemplatesFailed(names: set<string>)
    | StrictMissing(missing: set<string>)

  /** Whether preflight cannot read template `name`. */
  predicate TemplateFails(name: string, cfg: Config, w: World)
  {
    var r := ResolveTemplate(name, cfg.defaultTemplate, cfg.templateDir, w.fileExists);
    r.Err? || w.templateTokens(r.value).None?
  }

  /** The raw placeholders preflight collects: everything the readable templates in use hold. */
  function RawTokens(used: set<string>, cfg: Config, w: World): set<string>
  {
    set t, x | t in used && !TemplateFails(t, cfg, w)
      && x in w.templateTokens(ResolveTemplate(t, cfg.defaultTemplate, cfg.templateDir, w.fileExists).value).value :: x
  }

  /**
   * The preflight of `run_batch`: the TEMPLATE column must exist; every template in use must
   * resolve and be readable; in strict mode no placeholder may lack a column.
   */
  function Preflight(columns: seq<string>, templateCells: seq<string>, cfg: Config, w: World): Result<Report, Abort>
  {
    if "TEMPLATE" !in columns then Err(MissingRequiredColumns(["TEMPLATE"]))
    else
      var used := UsedTemplates(templateCells, cfg.defaultTemplate);
      var failed := set t | t in used && TemplateFails(t, cfg, w);
      if failed != {} then Err(TemplatesFailed(failed))
      else
        var report := ReportOf(columns, RawTokens(used, cfg, w));
        if cfg.strict && report.missingCols != {} then Err(StrictMissing(report.missingCols)) else Ok(report)
  }

  /**
   * Preflight refuses the batch for a missing TEMPLATE column and only then; it names exactly the
   * templates in use that fail; a passed preflight read every template in use and reports on
   * what they hold, and in strict mode found no missing column.
   */
  lemma {:induction false} PreflightOutcome(columns: seq<string>, templateCells: seq<string>, cfg: Config, w: World)
    ensures var r := Preflight(columns, templateCells, cfg, w);
      var used := UsedTemplates(templateCells, cfg.defaultTemplate);
      (r == Err(MissingRequiredColumns(["TEMPLATE"])) <==> "TEMPLATE" !in columns)
      && (r.Err? && r.error.TemplatesFailed? ==>
            r.error.names != {} && forall t :: t in r.error.names <==> t in used && TemplateFails(t, cfg, w))
      && (r.Ok? ==> forall t :: t in used ==> !TemplateFails(t, cfg, w))
      && (r.Ok? ==> r.value == ReportOf(columns, RawTokens(used, cfg, w)))
      && (r.Ok? && cfg.strict ==> r.value.missingCols == {})
      && (r.Err? && r.error.StrictMissing? ==> cfg.strict && r.error.missing != {})
  {
    if "TEMPLATE" in columns {
      var used := UsedTemplates(templateCells, cfg.defaultTemplate);
      var failed := set t | t in used && TemplateFails(t, cfg, w);
      forall t | t in used && TemplateFails(t, cfg, w)
        ensures t in failed
      {
      }
    }
  }

  /**
   * Preflight lets the batch through when the TEMPLATE column exists, every template in use
   * resolves and can be read, and, in strict mode, every placeholder's base name is a column.
   */
  lemma {:induction false} PreflightPasses(columns: seq<string>, templateCells: seq<string>, cfg: Config, w: World)
    requires "TEMPLATE" in columns
    requires forall t :: t in UsedTemplates(templateCells, cfg.defaultTemplate) ==> !TemplateFails(t, cfg, w)
    requires cfg.strict ==> ReportOf(columns, RawTokens(UsedTemplates(templateCells, cfg.defaultTemplate), cfg, w)).missingCols == {}
    ensures Preflight(columns, templateCells, cfg, w)
         == Ok(ReportOf(columns, RawTokens(UsedTemplates(templateCells, cfg.defaultTemplate), cfg, w)))
  {
    var used := UsedTemplates(templateCells, cfg.defaultTemplate);
    var failed := set t | t in used && TemplateFails(t, cfg, w);
    assert failed == {};
  }

  /**
   * Preflight resolves the template names of every row, including rows that will be skipped:
   * a blank TEMPLATE cell with no default template configured stops the whole batch, although
   * the row loop would have recorded SKIPPED or a resolve error for that row.
   */
  lemma {:induction false} BlankTemplateStopsBatch(columns: seq<string>, templateCells: seq<string>, cfg: Config, w: World, k: nat)
    requires "TEMPLATE" in columns && cfg.defaultTemplate == ""
    requires k < |templateCells| && Strip(templateCells[k]) == ""
    ensures Preflight(columns, templateCells, cfg, w).Err?
    ensures Preflight(columns, templateCells, cfg, w) != Err(StrictMissing({}))
  {
    var used0 := set c | c in templateCells :: Strip(c);
    assert templateCells[k] in templateCells;
    assert "" in used0;
    var used := UsedTemplates(templateCells, cfg.defaultTemplate);
    assert used == used0;
    assert Strip("") == "";
    assert TemplateFails("", cfg, w);
    var failed := set t | t in used && TemplateFails(t, cfg, w);
    assert "" in failed;
  }

  // ---------------------------------------------------------------------
  // Rows
  // ---------------------------------------------------------------------

  /** The SKIP values that skip a row, compared after trimming and lower-casing. */
  const SkipValues: set<string> := {"1", "true", "s\U{ED}", "si", "x", "y", "yes"}

  predicate IsSkip(cell: string)
  {
    Lower(Strip(cell)) in SkipValues
  }

  /** The PDF path of a row: the output folder (or its OUTPUT sub-folder) and the sanitised name with `.pdf`. */
  function OutputPath(row: Row, fileName: string, outputDir: string): string
  {
    Child(TargetDir(row, outputDir), PdfName(SanitizeFilename(fileName)))
  }

  /** The `.pdf` suffix brings no `/` into a name. */
  lemma PdfNameNoSlash(name: string)
    requires '/' !in name
    ensures '/' !in PdfName(name)
  {
  }

  /**
   * The folder a row's PDF goes to: the output folder, or the output folder joined with the
   * sanitised OUTPUT cell, a single path component without `/` that may be `..`.
   */
  function TargetDir(row: Row, outputDir: string): string
  {
    var subdir := Strip(Lookup(row, "OUTPUT"));
    if subdir != "" then Child(outputDir, SanitizeFilename(subdir)) else outputDir
  }

  /**
   * The PDF is written directly into the output folder or into the output folder joined with one
   * non-empty path component without `/` (possibly `..`), and its file name is the sanitised
   * pattern output ending in `.pdf`.
   */
  lemma {:induction false} OutputPathShape(row: Row, fileName: string, outputDir: string)
    ensures var p := OutputPath(row, fileName, outputDir);
      Name(p) == PdfName(SanitizeFilename(fileName)) && EndsWith(Lower(Name(p)), ".pdf")
      && (p == Child(outputDir, Name(p))
          || exists sub :: '/' !in sub && sub != "" && p == Child(Child(outputDir, sub), Name(p)))
  {
    var name := SanitizeFilename(fileName);
    var pdfName := PdfName(name);
    SanitizeSafe(fileName);
    PdfNameEnds(name);
    PdfNameNoSlash(name);
    var dir := TargetDir(row, outputDir);
    assert OutputPath(row, fileName, outputDir) == Child(dir, pdfName);
    ChildName(dir, pdfName);
    TargetDirShape(row, outputDir);
  }

  /**
   * The target folder is the output folder or the output folder joined with one non-empty path
   * component without `/`; that component may be `..` (see `TargetDirParent`).
   */
  lemma {:induction false} TargetDirShape(row: Row, outputDir: string)
    ensures TargetDir(row, outputDir) == outputDir
      || exists sub :: '/' !in sub && sub != "" && TargetDir(row, outputDir) == Child(outputDir, sub)
  {
    var cell := Lookup(row, "OUTPUT");
    var subdir := Strip(cell);
    if subdir != "" {
      var sub := SanitizeFilename(subdir);
      StripIdempotent(cell);
      SanitizeSafe(subdir);
      SanitizedNonEmpty(subdir);
      assert '/' !in sub && sub != "";
      assert TargetDir(row, outputDir) == Child(outputDir, sub);
    }
  }

  /**
   * Sanitising keeps `.`, so an OUTPUT cell `..` sends the PDF to the parent of the output folder
   * rather than into a sub-folder of it.
   */
  lemma {:induction false} TargetDirParent(outputDir: string)
    ensures TargetDir([("OUTPUT", "..")], outputDir) == Child(outputDir, "..")
  {
    var row: Row := [("OUTPUT", "..")];
    assert Lookup(row, "OUTPUT") == "..";
    StripAt("..", 0, 2);
    assert ".."[0..2] == "..";
    assert NoBadChar("..") by {
      forall k | 0 <= k < 2 ensures ".."[k] !in BadChars {
        assert ".."[k] == '.';
      }
    }
    SanitizeKeepsSafe("..");
  }

  /** A text with a non-whitespace character keeps it when stripped. */
  lemma {:induction false} StripKeeps(m: string, a: nat)
    requires a < |m| && !IsSpace(m[a])
    ensures Strip(m) != ""
  {
    var c, d := StripParts(m);
    assert c <= a;
    assert a < d;
  }

  /** A trimmed text that is not empty stays non-empty when sanitised. */
  lemma {:induction false} SanitizedNonEmpty(s: string)
    requires Strip(s) != ""
    ensures SanitizeFilename(s) != ""
  {
    var a, b := StripParts(s);
    assert !IsSpace(s[a]);
    var m := Masked(s, BadChars);
    assert !IsSpace(m[a]);
    ReplaceBadMasks(s, BadChars);
    StripKeeps(m, a);
  }

  /** Why a row that was not skipped produced no PDF, or how it was handled. */
  datatype Status =
    | Skipped
    | ResolveFailed(reason: ResolveError)
    | PatternFailed
    | DryRun(template: string, output: string)
    | Done(template: string, output: string, bytes: nat)
    | RenderFailed(template: string, output: string, error: string)

  /** One entry of the per-row result log; `row` is the row's label. */
  datatype Record = Record(row: int, status: Status)

  /**
   * What the loop of `run_batch` records for the row labelled `index`: skipped rows first, then a
   * template that does not resolve, then a pattern that names a missing column; otherwise the
   * PDF path, and in a dry run nothing is rendered.
   */
  function RowRecord(index: int, row: Row, cfg: Config, w: World): (r: Record)
    ensures r.row == index
    ensures r.status == Skipped <==> IsSkip(Lookup(row, "SKIP"))
    ensures r.status.Done? || r.status.RenderFailed? ==> !cfg.dryRun
    ensures r.status.DryRun? ==> cfg.dryRun
    ensures r.status.DryRun? || r.status.Done? || r.status.RenderFailed?
        ==> r.status.template == Lookup(row, "TEMPLATE")
            && ResolveTemplate(Lookup(row, "TEMPLATE"), cfg.defaultTemplate, cfg.templateDir, w.fileExists).Ok?
            && w.fileName(row, index).Some?
            && r.status.output == OutputPath(row, w.fileName(row, index).value, cfg.outputDir)
  {
    if IsSkip(Lookup(row, "SKIP")) then Record(index, Skipped)
    else
      var templateName := Lookup(row, "TEMPLATE");
      match ResolveTemplate(templateName, cfg.defaultTemplate, cfg.templateDir, w.fileExists)
      case Err(e) => Record(index, ResolveFailed(e))
      case Ok(_) =>
        match w.fileName(row, index)
        case None => Record(index, PatternFailed)
        case Some(name) =>
          var pdfPath := OutputPath(row, name, cfg.outputDir);
          if cfg.dryRun then Record(index, DryRun(templateName, pdfPath))
          else
            match w.render(index)
            case Rendered(bytes) => Record(index, Done(templateName, pdfPath, bytes))
            case RenderError(e) => Record(index, RenderFailed(templateName, pdfPath, e))
  }

  /** A row without a SKIP column is never skipped. */
  lemma NoSkipColumnNotSkipped(index: int, row: Row, cfg: Config, w: World)
    requires forall k :: 0 <= k < |row| ==> row[k].0 != "SKIP"
    ensures RowRecord(index, row, cfg, w).status != Skipped
  {
    assert Lower(Strip("")) == "";
  }

  /** The body of the row loop of `run_batch`: the record of one row. */
  method ProcessRow(index: int, row: Row, cfg: Config, w: World) returns (rec: Record)
    ensures rec == RowRecord(index, row, cfg, w)
  {
    if IsSkip(Lookup(row, "SKIP")) {
      return Record(index, Skipped);
    }
    var templateName := Lookup(row, "TEMPLATE");
    var resolved := ResolveTemplate(templateName, cfg.defaultTemplate, cfg.templateDir, w.fileExists);
    if resolved.Err? {
      return Record(index, ResolveFailed(resolved.error));
    }
    var name := w.fileName(row, index);
    if name.None? {
      return Record(index, PatternFailed);
    }
    var pdfName := SanitizeFilename(name.value);
    if !EndsWith(Lower(pdfName), ".pdf") {
      pdfName := pdfName + ".pdf";
    }
    var subdir := Strip(Lookup(row, "OUTPUT"));
    var targetDir := if subdir != "" then Child(cfg.outputDir, SanitizeFilename(subdir)) else cfg.outputDir;
    var pdfPath := Child(targetDir, pdfName);
    assert pdfPath == OutputPath(row, name.value, cfg.outputDir);
    if cfg.dryRun {
      return Record(index, DryRun(templateName, pdfPath));
    }
    match w.render(index) {
      case Rendered(bytes) => rec := Record(index, Done(templateName, pdfPath, bytes));
      case RenderError(e) => rec := Record(index, RenderFailed(templateName, pdfPath, e));
    }
  }

  /** The row loop of `run_batch`: one record per row of the table, in order. */
  method ProcessRows(table: seq<(int, Row)>, cfg: Config, w: World) returns (results: seq<Record>)
    ensures |results| == |table|
    ensures forall k :: 0 <= k < |table| ==> results[k] == RowRecord(table[k].0, table[k].1, cfg, w)
  {
    results := [];
    for i := 0 to |table|
      invariant |results| == i
      invariant forall k :: 0 <= k < i ==> results[k] == RowRecord(table[k].0, table[k].1, cfg, w)
    {
      var rec := ProcessRow(table[i].0, table[i].1, cfg, w);
      results := results + [rec];
    }
  }

  /**
   * `run_batch`: preflight, then one record per row of the table, in order.  The table lists
   * each row's label with its cells; `columns` are the spreadsheet's column names and
   * `templateCells` the TEMPLATE column.
   */
  method RunBatch(table: seq<(int, Row)>, columns: seq<string>, templateCells: seq<string>, cfg: Config, w: World)
    returns (r: Result<seq<Record>, Abort>)
    ensures r.Ok? <==> Preflight(columns, templateCells, cfg, w).Ok?
    ensures r.Err? ==> r.error == Preflight(columns, templateCells, cfg, w).error
    ensures r.Ok? ==> |r.value| == |table|
    ensures r.Ok? ==> forall k :: 0 <= k < |table| ==> r.value[k] == RowRecord(table[k].0, table[k].1, cfg, w)
  {
    var pre := Preflight(columns, templateCells, cfg, w);
    if pre.Err? {
      return Err(pre.error);
    }
    var results := ProcessRows(table, cfg, w);
    return Ok(results);
  }
}
