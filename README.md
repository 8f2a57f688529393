# office-template-batch-pdf, modelled in Dafny

`office-template-batch-pdf.py` fills `{{placeholder}}` tokens in Word (.docx) and PowerPoint
(.pptx) templates, one spreadsheet row at a time. It then exports each filled document to PDF.
This project models the logic of that pipeline and proves its properties:

- **The token language.** The lazy scanner used for replacement (`TOKEN_INNER_RE`) and the
  strict discovery scanner (`TOKEN_RE`). `_eval_token`, with its `?:` default and its `|` filter
  chain, and `_collect_base_name`.
- **Paragraph substitution.** The literal pass over the `{{column}}` mapping, then the
  expression pass. A paragraph whose text changed collapses to a single run. The PowerPoint
  replacer builds a new run from the first run's basic font attributes. The Word replacer keeps
  the first run.
- **The walkers.** Slides: shapes with text frames, tables and groups, plus notes, masters and
  layouts. Word documents: the body, nested tables, headers and footers. The collectors that
  gather the placeholder names of a template.
- **The legacy-conversion cache.** `.doc`, `.ppt`, `.odt`, `.odp` and `.rtf` are converted
  once per resolved path to `.docx`/`.pptx`.
- **PDF export.** The retry loop, and the choice between Microsoft Office and LibreOffice.
- **The batch.** `_sanitize_filename`, `_resolve_template_path`, the preflight comparison of
  placeholders with columns, SKIP, the `.pdf` suffix, the output path, and the per-row result
  log of `run_batch`.

The source's own style decides the modelling style:

- Pure computations (evaluation, scanning, file names, preflight sets) are functions with
  lemmas.
- A paragraph is a class whose `runs` the replacers reassign.
- The walkers are methods that loop over document trees held in datatypes. Each is proved to
  run the replacer exactly once on every paragraph it visits and to touch nothing else.
- The conversion cache is a class holding the cache map.
- The retry loop, the collectors and the batch loop are methods with loop invariants, proved
  against specification functions.

Modules, one file each: `Base` (Option, Result), `Strings` (the Python string operations used),
`Tokens`, `Paragraphs`, `Walk` (visit lists shared by both walkers), `Slides`, `Docs`, `Paths`
(`pathlib` name, suffix, stem), `Conversion`, `Export`, `Batch`.

Behaviours of the code worth noting, all kept in the model:

- The filters also apply to a `?:` default that replaced a blank value.
- The discovery pattern admits no `?`, so a token with a default is never discovered.
- The Word replacer keeps the first run and its whole formatting, and only re-applies bold,
  italic and underline to it.
- The PowerPoint walk visits masters and layouts before the slides.
- An OUTPUT cell `..` passes `_sanitize_filename` unchanged, so the PDF goes to the parent of the
  output folder (`Batch.TargetDirParent`).

## Model

| member | source | states |
|---|---|---|
| Strings.Find | office-template-batch-pdf.py:485 | `token in replaced`: the first occurrence, with none before it; None exactly when the text never occurs |
| Strings.StripParts | office-template-batch-pdf.py:183 | `strip()` removes exactly the leading and trailing whitespace (Python's `isspace` set) and keeps the middle |
| Strings.StripIdempotent | office-template-batch-pdf.py:183 | stripping twice is stripping once |
| Strings.SplitFirst | office-template-batch-pdf.py:242 | `split("?:", 1)`: no tail exactly when the separator is absent, otherwise head + separator + tail is the text and the head holds no separator |
| Strings.SplitFirstOf | office-template-batch-pdf.py:242 | the split happens at the first `?:` only; the text after it is kept whole |
| Strings.SplitJoin | office-template-batch-pdf.py:245 | `split("|")` pieces re-join to the text, and no piece contains `|` |
| Strings.ReplaceAbsent | office-template-batch-pdf.py:485-486 | replacing an absent token leaves the text unchanged |
| Strings.ReplaceBySelf | office-template-batch-pdf.py:486 | replacing a token by itself leaves the text unchanged |
| Strings.Lower | office-template-batch-pdf.py:930 | `lower()` keeps the length and lower-cases each character |
| Strings.LowerConcat | office-template-batch-pdf.py:961 | lower-casing distributes over concatenation |
| Tokens.Lookup | office-template-batch-pdf.py:249 | `rowdict.get(col, "")`: `""` for a column the row does not have |
| Tokens.LookupLast | office-template-batch-pdf.py:947 | `row2.to_dict()` keeps the last cell of a repeated column name: the lookup is the value of the last cell with that name |
| Tokens.LookupPresent | office-template-batch-pdf.py:249 | a column the row has is looked up from one of its cells, the last one with that name |
| Tokens.LookupUnique | office-template-batch-pdf.py:249 | with unique column names, each column's lookup is its own cell |
| Tokens.ApplyFilter | office-template-batch-pdf.py:253-263 | `trim`, `upper` and `lower` act as `strip`, `upper` and `lower`; `euros` and `dmy` apply the formatters; any other name leaves the value unchanged |
| Tokens.FiltersAppend | office-template-batch-pdf.py:260-263 | a filter chain applies its first part, then its second part to the result |
| Tokens.FiltersLeftToRight | office-template-batch-pdf.py:260-263 | the last filter applies to the value accumulated by those before it |
| Tokens.UnknownFilterSkipped | office-template-batch-pdf.py:261-263 | an unknown filter name anywhere in a chain has no effect |
| Tokens.FiltersOfEmpty | office-template-batch-pdf.py:253-263 | when the formatters keep `""`, every filter chain keeps `""` |
| Tokens.StripEach | office-template-batch-pdf.py:245 | `[p.strip() for p in ...]`: same length, each piece stripped |
| Tokens.PiecesOf | office-template-batch-pdf.py:245-246 | the pieces list is never empty, so the column always exists |
| Tokens.StripEmptyIff | office-template-batch-pdf.py:250 | `strip() == ""` exactly when the value is all whitespace |
| Tokens.ColumnIsBaseName | office-template-batch-pdf.py:240-249 | the column `_eval_token` looks up is `_collect_base_name` of the same token (lines 266-272) |
| Tokens.NoMarkerNoDefault | office-template-batch-pdf.py:240-243 | without `?:` there is no default, and the whole token is the expression |
| Tokens.FirstMarkerSplits | office-template-batch-pdf.py:241-243 | only the first `?:` splits: the default is the stripped rest, even when it contains `?:` |
| Tokens.DefaultTextIrrelevant | office-template-batch-pdf.py:242-247 | the default's text changes neither the column nor the filters |
| Tokens.EvalMissingNoDefault | office-template-batch-pdf.py:249-264 | a missing column without a default evaluates to `""` |
| Tokens.EvalBlankWithDefault | office-template-batch-pdf.py:250-263 | a blank value with a default `D` evaluates to the filter chain applied to `D.strip()` |
| Tokens.EvalPresent | office-template-batch-pdf.py:249-263 | a non-blank value evaluates to the filter chain applied to the value |
| Tokens.DelimitedEnd | office-template-batch-pdf.py:226 | finds the end of a `{{…}}` match at a position exactly when one exists: at least one character, none of them `}` |
| Tokens.InnerMatchAt | office-template-batch-pdf.py:226 | `TOKEN_INNER_RE` matches at a position exactly when a delimited placeholder starts there; the group is the stripped inner text (the lazy group keeps one character of all-blank text) |
| Tokens.ExprPassMatch | office-template-batch-pdf.py:494-495 | `TOKEN_INNER_RE.sub` scans left to right: where the lazy pattern matches at the start, the evaluation of its group replaces the match and the scan resumes after it; elsewhere the first character is kept |
| Tokens.SubCopies | office-template-batch-pdf.py:495 | text without `{` is copied by the substitution, which goes on after it |
| Tokens.SubReplaces | office-template-batch-pdf.py:495 | a placeholder `{{c}}` after text without `{` is replaced by the evaluation of `c`, and the rest is substituted in turn |
| Tokens.ExprPassReplaces | office-template-batch-pdf.py:490-495 | the expression pass replaces `{{c}}` (no `}` in `c`) after text without `{` by `_eval_token` of the lazy group of `c`, and substitutes the rest of the text in turn |
| Tokens.SubNoOpen | office-template-batch-pdf.py:494-495 | text without `{{` is unchanged by `TOKEN_INNER_RE.sub` |
| Tokens.ExprPassNoOpen | office-template-batch-pdf.py:494-495 | the expression pass leaves text without `{{` unchanged |
| Tokens.DiscoveryMatchAt | office-template-batch-pdf.py:690 | a `TOKEN_RE` match is a `TOKEN_INNER_RE` match with the same end, and its group is the stripped inner text |
| Tokens.DiscoveryMatchIff | office-template-batch-pdf.py:690 | `TOKEN_RE` matches at a position exactly when a placeholder starts there whose inner text it accepts |
| Tokens.DiscoverMatch | office-template-batch-pdf.py:698-699 | `finditer` scans left to right: a match at the start contributes its stripped group and the scan resumes after it; otherwise it moves one character on |
| Tokens.DiscoverFinds | office-template-batch-pdf.py:690-699 | an accepted placeholder `{{c}}` after text without `{` is discovered as `c.strip()`, and discovery goes on after it |
| Tokens.DiscoverSkipsRejected | office-template-batch-pdf.py:690-699 | a placeholder `TOKEN_RE` refuses (a `?:` default, or any other character outside its class) is not discovered, nor is anything inside it |
| Tokens.DiscoverNameChars | office-template-batch-pdf.py:690 | every discovered name consists of `[A-Za-z0-9_\- :\|]` only |
| Tokens.DiscoveredHaveNoDefault | office-template-batch-pdf.py:690 | a discovered token never holds `?:`, and its base name is its stripped part before the first `\|` |
| Tokens.DiscoverNoOpen | office-template-batch-pdf.py:698-699 | text without `{{` yields no names |
| Tokens.MakeTokenHasOpen | office-template-batch-pdf.py:189-191 | `_token(col)` contains `{{` |
| Paragraphs.TextConcat | office-template-batch-pdf.py:476 | the joined text of two run lists one after the other is their two joined texts in order |
| Paragraphs.TextSingle | office-template-batch-pdf.py:476 | one run joins to its own text; no runs join to `""` |
| Paragraphs.TextNonEmpty | office-template-batch-pdf.py:504 | non-empty text means there is a first run |
| Paragraphs.MappingOf | office-template-batch-pdf.py:851-855 | the mapping has at most one entry per cell of the row |
| Paragraphs.KeyIndex | office-template-batch-pdf.py:855 | the position of a key in the dict, or None exactly when no pair has that key |
| Paragraphs.PutSpec | office-template-batch-pdf.py:855 | `mapping[key] = value`: afterwards the key holds the value, every other pair is kept and none added, keys stay unique, and keys already present keep their places |
| Paragraphs.BuildMapping | office-template-batch-pdf.py:851-855 | the loop of dict assignments, overwriting a held placeholder in place and appending a new one, builds the mapping of the row |
| Paragraphs.MappingUniqueKeys | office-template-batch-pdf.py:851-855 | each placeholder occurs once in the mapping, as in a dict |
| Paragraphs.MappingEntries | office-template-batch-pdf.py:851-855 | every entry is `(_token(col), rowdict[col])` for a column whose upper-case form is not TEMPLATE, the value being that of the column's last cell (line 947) |
| Paragraphs.MappingComplete | office-template-batch-pdf.py:851-855 | every column whose upper-case form is not TEMPLATE has the entry `(_token(col), rowdict[col])` |
| Paragraphs.MappingPrefix | office-template-batch-pdf.py:851-855 | a placeholder keeps the place of the column's first cell: the mapping of the first cells of a row lists its placeholders first, in the same order |
| Paragraphs.MappingRepeatedColumn | office-template-batch-pdf.py:851-855 | two cells named `A` give the single entry `({{A}}, value of the second cell)` |
| Paragraphs.MakeTokenInjective | office-template-batch-pdf.py:189-191 | distinct column names have distinct placeholders |
| Paragraphs.MappingTokensOpen | office-template-batch-pdf.py:851-855 | every mapping token contains `{{` |
| Paragraphs.SubstituteText | office-template-batch-pdf.py:480-498 | the step-by-step `replaced`/`changed` computation equals the two passes |
| Paragraphs.FastPassNoOpen | office-template-batch-pdf.py:484-487 | text without `{{` is unchanged by the literal pass and not marked changed |
| Paragraphs.FastPassChangedHit | office-template-batch-pdf.py:484-487 | a reported change has a token that occurred in the text left by the earlier tokens |
| Paragraphs.FastPassHitChanged | office-template-batch-pdf.py:484-487 | a token that occurred makes the pass report a change |
| Paragraphs.FastPassChanged | office-template-batch-pdf.py:484-487 | `changed` after the literal pass holds exactly when some token occurred |
| Paragraphs.FastPassUnchangedText | office-template-batch-pdf.py:484-487 | an unchanged literal pass returns the text as it was |
| Paragraphs.SubstituteNoOpen | office-template-batch-pdf.py:480-501 | text without `{{` comes through both passes unchanged and unmarked |
| Paragraphs.UnchangedKeepsRuns | office-template-batch-pdf.py:476-501 | empty text, or no change from either pass, leaves the runs exactly as they were |
| Paragraphs.NoPlaceholderUntouched | office-template-batch-pdf.py:484-501 | a paragraph without `{{` keeps its runs and styles |
| Paragraphs.ChangedCollapses | office-template-batch-pdf.py:503-527 | a changed paragraph becomes one run with the replaced text and the first run's six basic attributes. The document flavour keeps the first run's whole style (lines 611-637); the presentation flavour drops the rest |
| Paragraphs.NewRunsText | office-template-batch-pdf.py:476-527 | the paragraph's text afterwards is the substituted text |
| Paragraphs.ChangedRuns | office-template-batch-pdf.py:503-527 | a paragraph whose substitution reported a change has a first run, and its new runs are that one run with the replaced text and the collapsed style |
| Paragraphs.ReplaceInPresentationParagraph | office-template-batch-pdf.py:469-527 | the paragraph's runs become the collapsed runs of the presentation flavour |
| Paragraphs.RemoveOtherRuns | office-template-batch-pdf.py:644-652 | removing the snapshot's runs after the first, one by one, leaves only the first run |
| Paragraphs.ReplaceInDocumentParagraph | office-template-batch-pdf.py:575-652 | the paragraph's runs become the collapsed runs of the document flavour |
| Walk.ReplaceEach | office-template-batch-pdf.py:537-538 | on a list without repeated paragraphs, each paragraph gets its replaced runs |
| Walk.GatherMember | office-template-batch-pdf.py:696-699 | a name is in the union exactly when one element yields it |
| Walk.Texts | office-template-batch-pdf.py:697 | the concatenated run text of each paragraph, in order |
| Walk.TokensOfConcat | office-template-batch-pdf.py:692-768 | gathering over two lists is the union of gathering over each |
| Walk.TokensOfMember | office-template-batch-pdf.py:696-699 | a name is gathered exactly when it is discovered in one of the paragraphs |
| Walk.CollectEach | office-template-batch-pdf.py:704-705 | the loop adds exactly the names of the paragraphs to `found` |
| Slides.ShapesParasPrefix | office-template-batch-pdf.py:535 | a shape's paragraphs follow those of the shapes before it in the walk |
| Slides.ReplaceInTable | office-template-batch-pdf.py:539-543 | every paragraph of every cell with a text frame, row by row, is replaced once |
| Slides.ReplaceInOwn | office-template-batch-pdf.py:536-543 | a shape's text frame, then its table, are replaced |
| Slides.ReplaceInShape | office-template-batch-pdf.py:535-545 | a shape and, for a group, its children recursively are replaced |
| Slides.ReplaceInShapes | office-template-batch-pdf.py:534-545 | all paragraphs of a shape list are replaced, each once |
| Slides.ReplaceOnSlide | office-template-batch-pdf.py:548-555 | a slide's shapes, then its notes, are replaced |
| Slides.ReplaceOnSlides | office-template-batch-pdf.py:547-555 | every slide's paragraphs are replaced |
| Slides.ReplaceOnLayouts | office-template-batch-pdf.py:561-562 | every layout's paragraphs are replaced |
| Slides.ReplaceOnMaster | office-template-batch-pdf.py:559-562 | a master's shapes, then its layouts, are replaced |
| Slides.ReplaceOnMasters | office-template-batch-pdf.py:557-564 | every master's paragraphs are replaced |
| Slides.ReplacePlaceholders | office-template-batch-pdf.py:566-569 | with `scan_masters`, masters then slides are replaced; without it, master and layout paragraphs keep their runs |
| Slides.CollectTokens | office-template-batch-pdf.py:692-733 | the collector returns exactly the names discovered in the paragraphs the walk visits |
| Docs.RowsFlat | office-template-batch-pdf.py:655-656 | the rows' paragraphs are their concatenation in row order |
| Docs.CellsFlat | office-template-batch-pdf.py:656-660 | the cells' paragraphs are their concatenation in cell order |
| Docs.TablesFlat | office-template-batch-pdf.py:666-667 | the tables' paragraphs are their concatenation in table order |
| Docs.ReplaceInTable | office-template-batch-pdf.py:654-660 | every paragraph of a table, nested tables included, is replaced once |
| Docs.ReplaceInRow | office-template-batch-pdf.py:655-660 | every paragraph of a row's cells is replaced |
| Docs.ReplaceInCell | office-template-batch-pdf.py:657-660 | a cell's paragraphs, then its nested tables, are replaced |
| Docs.ReplaceInTables | office-template-batch-pdf.py:666-667 | every paragraph of a table list is replaced |
| Docs.ReplaceInPart | office-template-batch-pdf.py:664-667 | a body, header or footer: paragraphs then tables are replaced |
| Docs.ReplaceInSection | office-template-batch-pdf.py:671-683 | a section's header, then its footer, are replaced (python-docx always returns both objects) |
| Docs.ReplaceInSections | office-template-batch-pdf.py:670-683 | every section's header and footer paragraphs are replaced |
| Docs.ReplacePlaceholders | office-template-batch-pdf.py:662-683 | the body is replaced, then headers and footers when scanned; unscanned headers and footers keep their runs |
| Docs.CollectTokens | office-template-batch-pdf.py:735-768 | the collector returns exactly the names discovered in the paragraphs the walk visits |
| Paths.LastIndex | office-template-batch-pdf.py:457 | the last occurrence of a character, or None when it does not occur |
| Paths.Name | office-template-batch-pdf.py:457 | a path's name holds no `/` and ends the path |
| Paths.NameParts | office-template-batch-pdf.py:444 | name = stem + suffix; the suffix is empty or a proper extension with a non-empty stem |
| Paths.ChildName | office-template-batch-pdf.py:796 | `Path(dir) / name` has name `name` when `name` holds no `/` |
| Paths.ChildParts | office-template-batch-pdf.py:457 | the file `stem + ext` in a directory has that stem and suffix |
| Conversion.ConvertStep | office-template-batch-pdf.py:439-463 | a failure never changes the cache; a changed cache gains only the entry of this key, after a converter run that succeeded |
| Conversion.OoxmlPassesThrough | office-template-batch-pdf.py:444-446 | `.docx`/`.pptx` come back unchanged, uncached and unconverted |
| Conversion.UnsupportedRefused | office-template-batch-pdf.py:447-448 | an extension outside `OOXML_TARGETS` is refused before any conversion |
| Conversion.ConvertOnce | office-template-batch-pdf.py:450-452 | after a successful call, the same key returns the same file without running the converter, whatever it would do |
| Conversion.TargetsAreOoxml | office-template-batch-pdf.py:118-126 | every target of `OOXML_TARGETS` is `.docx` or `.pptx` |
| Conversion.ConvertedPathExt | office-template-batch-pdf.py:454-457 | the converted file has the target extension |
| Conversion.ConvertedIsOoxml | office-template-batch-pdf.py:444-457 | a converted file given back to the conversion passes through unchanged |
| Conversion.ConvertCache.Convert | office-template-batch-pdf.py:439-463 | the method's result and cache are those of the conversion step; the cache invariant holds: a path is cached exactly when the converter succeeded on it once |
| Export.FirstSuccess | office-template-batch-pdf.py:342-345 | the first successful attempt, with all earlier ones failed; None when all failed |
| Export.ExportWithRetry | office-template-batch-pdf.py:337-349 | at most `retries + 1` attempts; success exactly when one of them succeeds, stopping at the first; otherwise the last attempt's error; with `retries < 0`, `raise None` |
| Export.OfficeOnlyWhenExported | office-template-batch-pdf.py:803-831 | LibreOffice is skipped exactly when the engine is `auto` or `msoffice` and the Office export returned True; any other engine, or not Windows, goes straight to LibreOffice |
| Export.ExportWithSelectedEngine | office-template-batch-pdf.py:803-831 | the method ends without LibreOffice exactly when the selection says Office; otherwise its outcome is the retry loop's: success exactly when an attempt succeeds, reporting the first successful one, otherwise the last attempt's error, and `raise None` for a negative retry count |
| Export.ExportByLibreOffice | office-template-batch-pdf.py:818-832 | the LibreOffice fallback: success exactly when one attempt succeeds, reporting the first one; otherwise the last attempt's error; `raise None` for a negative retry count |
| Batch.Masked | office-template-batch-pdf.py:180-182 | each unsafe character becomes `_`, everything else stays |
| Batch.ReplaceOneMasks | office-template-batch-pdf.py:182 | `s.replace(ch, "_")` masks that one character |
| Batch.ReplaceBadMasks | office-template-batch-pdf.py:180-182 | replacing the unsafe characters one after another masks all of them |
| Batch.SanitizeSafe | office-template-batch-pdf.py:178-183 | a sanitised name has no unsafe character (no `/` or `\`), no surrounding whitespace, and sanitising again changes nothing |
| Batch.SanitizeKeepsSafe | office-template-batch-pdf.py:178-183 | a safe, trimmed name is kept as it is |
| Batch.SanitizedNonEmpty | office-template-batch-pdf.py:965-966 | a non-blank OUTPUT cell gives a non-empty folder name |
| Batch.PdfNameEnds | office-template-batch-pdf.py:960-962 | the name ends with `.pdf` in any case, starts with the given name, adding twice is adding once, and a name already ending so is kept |
| Batch.ResolveTemplateSound | office-template-batch-pdf.py:785-801 | success is an existing file directly in the template folder, named by the stripped cell or else the default, with no `/` or `\`; "empty" is reported exactly for a blank cell without a default |
| Batch.PreflightOutcome | office-template-batch-pdf.py:887-918 | the batch is refused for a missing TEMPLATE column and only then; a passed preflight read every template in use, and in strict mode found no missing column |
| Batch.ReportOf | office-template-batch-pdf.py:896-909 | missing = base names − non-TEMPLATE columns; unused = non-TEMPLATE columns − base names; the two partitions hold |
| Batch.CleanPreflightFindsColumns | office-template-batch-pdf.py:896-909 | with nothing missing, every discovered token looks up an existing column of the row |
| Batch.PreflightPasses | office-template-batch-pdf.py:887-918 | with a TEMPLATE column, every template in use readable and, in strict mode, no missing column, preflight passes with the report of the columns against the discovered names |
| Batch.BlankTemplateStopsBatch | office-template-batch-pdf.py:897-905 | a blank TEMPLATE cell with no default, even on a SKIP row, stops the batch in preflight |
| Batch.TargetDirShape | office-template-batch-pdf.py:965-966 | the target folder is the output folder, or the output folder joined with one non-empty path component without `/` (possibly `..`) |
| Batch.TargetDirParent | office-template-batch-pdf.py:965-966 | an OUTPUT cell `..` makes the target folder the output folder joined with `..`, its parent |
| Batch.OutputPathShape | office-template-batch-pdf.py:960-968 | the PDF lands in that folder (the output folder, or it joined with one non-empty component without `/`), named by the sanitised pattern output ending in `.pdf` |
| Batch.RowRecord | office-template-batch-pdf.py:928-1002 | one record labelled with the row. It is SKIPPED exactly for a SKIP value. A dry run renders nothing. Any record with an output has a resolved template, a pattern result and the computed path |
| Batch.NoSkipColumnNotSkipped | office-template-batch-pdf.py:930-931 | a row without a SKIP column is never skipped |
| Batch.ProcessRow | office-template-batch-pdf.py:929-1002 | the step-by-step row body produces the row's record |
| Batch.ProcessRows | office-template-batch-pdf.py:928-1002 | exactly one record per row, in order |
| Batch.RunBatch | office-template-batch-pdf.py:887-1002 | the batch fails exactly when preflight fails, with its error; otherwise it records exactly one record per row, in order |

## Left out

- I/O is not modelled: LibreOffice (`lo_convert`, `export_pdf_with_libreoffice`), COM, pandas
  reading, `_apply_formatters`, report writing, logging and the progress bar. Each call the
  model needs becomes a parameter that says how the call ends: the converter run, each export
  attempt, `_msoffice_export_pdf`'s result, `path.exists()`, the filename pattern, rendering
  and template reading.
- `_msoffice_export_pdf` is modelled by its gating only: Windows, the extension, and
  Word/PowerPoint readiness. Whether the COM export itself succeeds is a parameter.
- `render_pdf_from_template` is not composed into the batch; a row's rendering outcome is a
  parameter of the batch. Its parts are modelled separately: conversion, the mapping, both
  walkers and export.
- `_collect_tokens_from_template_path` enters preflight as a function from template path to
  names. The collectors it calls are modelled in `Slides.CollectTokens` and `Docs.CollectTokens`.
- Batch.PreflightOutcome: the preflight loop stops at the first template that fails, in set
  iteration order. The model reports the set of all failing templates instead.
- Tokens.Lookup: one row of `(column, value)` cells serves every lookup, with the last cell of a
  repeated column name winning as in `to_dict()`. The SKIP, TEMPLATE and OUTPUT cells are read
  with `row.get` on the pandas row before `_apply_formatters`; a repeated column name there gives
  a Series, and a formatter that changes those cells would make them differ. Neither is modelled.
- `FILENAME_PATTERN.format(**ctx)` is abstract: a row's name, or None for a missing key.
  Other format errors, which stop the whole batch, are not modelled.
- `_ensure_outdir` failing (which would stop the batch) is not modelled.
- `_fmt_euros` and `_fmt_fecha_dmy` are uninterpreted string functions.
- Strings.Lower: `upper()` and `lower()` are exact for Latin-1 and act as the identity beyond
  it. `strip()` uses Python's full `isspace` set.
- Paths: `Path` normalisation (repeated or trailing `/`, `.` components) and `resolve()` are
  not modelled. The resolved key of the conversion cache and the temporary directory are
  parameters.
- Docs.ReplaceInSections: a header or footer linked to the previous section is the same part,
  reached once per section, so its paragraphs would be visited twice. The required distinctness
  of the visited paragraphs excludes linked headers and footers.
- Docs.ReplacePlaceholders: requires the same distinctness over body, headers and footers, so
  documents whose sections share linked headers or footers are outside the model.
- The walkers require each structure's paragraphs to be distinct objects. Merged Word table
  cells, which python-docx returns once per grid position, are not modelled.
- Runs nested in hyperlinks or fields, and the Word replacer's run removal around them, are not
  modelled; every run is a direct child of its paragraph.
- The collectors read `p.text` when a paragraph has no runs; the model reads run text only, so
  such a paragraph yields no names.
- The `try`/`except` around masters and notes in the PowerPoint walker and collector is not
  modelled; reaching them never fails in the model.
- The Word replacer's re-assignment of the paragraph style to its own name is not modelled;
  it does not change the style.
- The engine setting is compared after `lower().strip()`. No lemma states that case and
  surrounding whitespace of the setting do not matter.
- The "produced file exists ⇒ moved" step of the LibreOffice export is inside an export
  attempt's outcome.
