/**
 * PDF export: the retry loop around the LibreOffice export, and the choice between Microsoft
 * Office (through COM, on Windows) and LibreOffice.  Both external programs are represented only
 * by how each call to them ends.
 */
module Export {
  import opened Base
  import opened Strings
  import opened Paths
  import opened Conversion

  /** How one LibreOffice export attempt ended. */
  datatype Attempt = Exported | Raised(error: string)

  /**
   * Why the retry loop gave up: the error of its last attempt, or, when it made no attempt at
   * all, the error Python raises for `raise None`.
   */
  datatype ExportFailure = LastError(error: string) | RaisedNone

  /** `range(1, retries + 2)` has this many attempts. */
  function TotalAttempts(retries: int): nat
  {
    if retries + 1 > 0 then retries + 1 else 0
  }

  /** The first attempt (counting from 0) among the first `n` that exported. */
  function FirstSuccess(attempt: nat -> Attempt, n: nat): (r: Option<nat>)
    ensures r.Some? ==> r.value < n && attempt(r.value) == Exported
    ensures r.Some? ==> forall k :: 0 <= k < r.value ==> attempt(k).Raised?
    ensures r.None? ==> forall k :: 0 <= k < n ==> attempt(k).Raised?
  {
    if n == 0 then None
    else match FirstSuccess(attempt, n - 1)
      case Some(k) => Some(k)
      case None => if attempt(n - 1) == Exported then Some(n - 1) else None
  }

  /**
   * `export_pdf_with_retry`: attempt `k` (from 0) ends as `attempt(k)`.  It makes at most
   * `retries + 1` attempts and stops at the first that exports; when every attempt fails it
   * reports the last attempt's error.  `r` is the index of the attempt that exported, `tries`
   * the number of attempts made.
   */
  method ExportWithRetry(attempt: nat -> Attempt, retries: int) returns (r: Result<nat, ExportFailure>, tries: nat)
    ensures tries <= TotalAttempts(retries)
    ensures r.Ok? <==> FirstSuccess(attempt, TotalAttempts(retries)).Some?
    ensures r.Ok? ==> r.value == FirstSuccess(attempt, TotalAttempts(retries)).value && tries == r.value + 1
    ensures r.Err? ==> tries == TotalAttempts(retries)
    ensures r.Err? && retries >= 0 ==> r.error == LastError(attempt(retries).error)
    ensures retries < 0 ==> r == Err(RaisedNone)
  {
    var lastErr: Option<string> := None;
    tries := 0;
    var n := 1;
    while n < retries + 2
      invariant 1 <= n && n - 1 <= TotalAttempts(retries) && tries == n - 1
      invariant forall k :: 0 <= k < n - 1 ==> attempt(k).Raised?
      invariant lastErr == (if n == 1 then None else Some(attempt(n - 2).error))
      decreases retries + 2 - n
    {
      tries := tries + 1;
      match attempt(n - 1)
      case Exported =>
        return Ok(n - 1), tries;
      case Raised(e) =>
        lastErr := Some(e);
      n := n + 1;
    }
    if lastErr.None? {
      return Err(RaisedNone), tries;
    }
    return Err(LastError(lastErr.value)), tries;
  }

  /** Whether Word and PowerPoint could be started through COM, and whether this is Windows. */
  datatype OfficeEnv = OfficeEnv(windows: bool, wordReady: bool, pptReady: bool)

  /**
   * `_msoffice_export_pdf`: True only on Windows, for a .docx with Word ready or a .pptx with
   * PowerPoint ready, and when the COM export itself (`comExports`) succeeds.
   */
  function MsOfficeExports(env: OfficeEnv, ext: string, comExports: bool): bool
  {
    env.windows && ((ext == ".docx" && env.wordReady) || (ext == ".pptx" && env.pptReady)) && comExports
  }

  /** How `_export_pdf_with_selected_engine` ends: Office produced the PDF, or LibreOffice is used (after Office was tried or not). */
  datatype Route = ByMsOffice | ByLibreOffice(officeTried: bool)

  /** The engine setting as it is compared: `EXPORT_ENGINE.lower().strip()`. */
  function EngineOf(setting: string): string
  {
    Strip(Lower(setting))
  }

  /** The choice `_export_pdf_with_selected_engine` makes for the edited file `path`. */
  function SelectEngine(setting: string, path: string, env: OfficeEnv, comExports: bool): Route
  {
    var engine := EngineOf(setting);
    var ext := Ext(path);
    if engine == "auto" then
      if env.windows && ((ext == ".docx" && env.wordReady) || (ext == ".pptx" && env.pptReady)) then
        if MsOfficeExports(env, ext, comExports) then ByMsOffice else ByLibreOffice(true)
      else ByLibreOffice(false)
    else if engine == "msoffice" then
      if env.windows && IsOoxml(ext) then
        if MsOfficeExports(env, ext, comExports) then ByMsOffice else ByLibreOffice(true)
      else ByLibreOffice(false)
    else ByLibreOffice(false)
  }

  /**
   * LibreOffice is skipped exactly when the engine is "auto" or "msoffice" and the Office export
   * returned True; every other setting, including an unknown one, ends with LibreOffice.
   */
  lemma OfficeOnlyWhenExported(setting: string, path: string, env: OfficeEnv, comExports: bool)
    ensures SelectEngine(setting, path, env, comExports) == ByMsOffice
        <==> (EngineOf(setting) == "auto" || EngineOf(setting) == "msoffice") && MsOfficeExports(env, Ext(path), comExports)
    ensures EngineOf(setting) != "auto" && EngineOf(setting) != "msoffice"
        ==> SelectEngine(setting, path, env, comExports) == ByLibreOffice(false)
    ensures !env.windows ==> SelectEngine(setting, path, env, comExports) == ByLibreOffice(false)
  {
  }

  /**
   * `_export_pdf_with_selected_engine`: Office first when the engine and the environment allow
   * it, otherwise (or when Office did not export) the LibreOffice retry loop.  `r` is the attempt
   * of LibreOffice that exported, or None when Office produced the PDF.
   */
  method ExportWithSelectedEngine(setting: string, path: string, env: OfficeEnv, comExports: bool,
                                  attempt: nat -> Attempt, retries: int)
    returns (r: Result<Option<nat>, ExportFailure>, tries: nat)
    ensures SelectEngine(setting, path, env, comExports) == ByMsOffice <==> r == Ok(None)
    ensures SelectEngine(setting, path, env, comExports) == ByMsOffice ==> tries == 0
    ensures SelectEngine(setting, path, env, comExports).ByLibreOffice?
        ==> (r.Ok? <==> FirstSuccess(attempt, TotalAttempts(retries)).Some?) && tries <= TotalAttempts(retries)
    ensures SelectEngine(setting, path, env, comExports).ByLibreOffice? && r.Ok?
        ==> r.value.Some? && r.value.value == FirstSuccess(attempt, TotalAttempts(retries)).value
    ensures SelectEngine(setting, path, env, comExports).ByLibreOffice? && r.Err? && retries >= 0
        ==> r.error == LastError(attempt(retries).error)
    ensures SelectEngine(setting, path, env, comExports).ByLibreOffice? && retries < 0 ==> r == Err(RaisedNone)
  {
    var engine := Strip(Lower(setting));
    var ext := Lower(Suffix(path));
    ghost var route := SelectEngine(setting, path, env, comExports);
    assert engine == EngineOf(setting) && ext == Ext(path);
    if engine == "auto" {
      if env.windows && ((ext == ".docx" && env.wordReady) || (ext == ".pptx" && env.pptReady)) {
        if MsOfficeExports(env, ext, comExports) {
          return Ok(None), 0;
        }
      }
    } else if engine == "msoffice" {
      if env.windows && (ext == ".docx" || ext == ".pptx") {
        if MsOfficeExports(env, ext, comExports) {
          return Ok(None), 0;
        }
      }
    }
    assert route.ByLibreOffice?;
    r, tries := ExportByLibreOffice(attempt, retries);
  }

  /** The LibreOffice branch of `_export_pdf_with_selected_engine`: the retry loop's outcome, with no Office result. */
  method ExportByLibreOffice(attempt: nat -> Attempt, retries: int) returns (r: Result<Option<nat>, ExportFailure>, tries: nat)
    ensures r.Ok? <==> FirstSuccess(attempt, TotalAttempts(retries)).Some?
    ensures tries <= TotalAttempts(retries)
    ensures r.Ok? ==> r.value.Some? && r.value.value == FirstSuccess(attempt, TotalAttempts(retries)).value
    ensures r.Err? && retries >= 0 ==> r.error == LastError(attempt(retries).error)
    ensures retries < 0 ==> r == Err(RaisedNone)
  {
    var lo;
    lo, tries := ExportWithRetry(attempt, retries);
    match lo {
      case Ok(k) => r := Ok(Some(k));
      case Err(e) => r := Err(e);
    }
  }
}
