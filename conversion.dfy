/**
 * Legacy templates (.doc, .ppt, .odt, .odp, .rtf) are converted once to the matching Office Open
 * XML format (.docx or .pptx), and the converted file is remembered per resolved template path.
 * The converter is external; each time it runs, the model is told how it ended.
 */
module Conversion {
  import opened Base
  import opened Strings
  import opened Paths

  /** `OOXML_TARGETS`: each supported template extension and the extension it is converted to. */
  const OoxmlTargets: map<string, string> := map[
    ".docx" := ".docx", ".pptx" := ".pptx",
    ".doc" := ".docx", ".ppt" := ".pptx",
    ".odt" := ".docx", ".odp" := ".pptx",
    ".rtf" := ".docx"]

  predicate IsOoxml(ext: string)
  {
    ext == ".docx" || ext == ".pptx"
  }

  /** `template_path.suffix.lower()` */
  function Ext(path: string): string
  {
    Lower(Suffix(path))
  }

  /** How one run of the external converter ended: it raised, or it finished and the expected file exists or not. */
  datatype ConverterRun = ConverterRaised(message: string) | ConverterFinished(produced: bool)

  datatype ConvertError =
    | UnsupportedExtension(ext: string)
    | ConverterFailed(message: string)
    | ConversionFailed(converted: string)

  /** Whether a call starts the converter: a legacy extension whose resolved path is not cached yet. */
  predicate RunsConverter(cache: map<string, string>, path: string, key: string)
  {
    !IsOoxml(Ext(path)) && Ext(path) in OoxmlTargets && key !in cache
  }

  /** Where the converter leaves its output: the template's stem with the target extension, in a fresh directory. */
  function ConvertedPath(path: string, tmpDir: string): string
    requires Ext(path) in OoxmlTargets
  {
    Child(tmpDir, Stem(path) + OoxmlTargets[Ext(path)])
  }

  /**
   * `convert_to_ooxml_if_needed` on a cache: the path to use and the cache afterwards.  `key` is
   * the resolved template path, `tmpDir` the directory made for the conversion and `run` how the
   * converter ended (consulted only when it runs).  A failure never touches the cache, and a
   * success adds exactly the entry for its own key.
   */
  function ConvertStep(cache: map<string, string>, path: string, key: string, tmpDir: string, run: ConverterRun)
    : (r: (Result<string, ConvertError>, map<string, string>))
    ensures r.0.Err? ==> r.1 == cache
    ensures r.1 != cache ==> RunsConverter(cache, path, key) && r.0.Ok? && r.1 == cache[key := r.0.value]
  {
    var ext := Ext(path);
    if IsOoxml(ext) then (Ok(path), cache)
    else if ext !in OoxmlTargets then (Err(UnsupportedExtension(ext)), cache)
    else if key in cache then (Ok(cache[key]), cache)
    else
      match run
      case ConverterRaised(msg) => (Err(ConverterFailed(msg)), cache)
      case ConverterFinished(produced) =>
        var converted := ConvertedPath(path, tmpDir);
        if produced then (Ok(converted), cache[key := converted])
        else (Err(ConversionFailed(converted)), cache)
  }

  /** Office Open XML templates are used as they are and never cached. */
  lemma OoxmlPassesThrough(cache: map<string, string>, path: string, key: string, tmpDir: string, run: ConverterRun)
    requires IsOoxml(Ext(path))
    ensures ConvertStep(cache, path, key, tmpDir, run) == (Ok(path), cache)
    ensures !RunsConverter(cache, path, key)
  {
  }

  /** An extension without a target is refused before anything is converted or cached. */
  lemma UnsupportedRefused(cache: map<string, string>, path: string, key: string, tmpDir: string, run: ConverterRun)
    requires Ext(path) !in OoxmlTargets
    ensures ConvertStep(cache, path, key, tmpDir, run) == (Err(UnsupportedExtension(Ext(path))), cache)
    ensures !RunsConverter(cache, path, key)
  {
  }

  /**
   * At most one successful conversion per resolved path: once a call has converted a template,
   * a later call for the same resolved path returns the same file, does not run the converter
   * and leaves the cache as it is, whatever the converter would have done.
   */
  lemma {:induction false} ConvertOnce(cache: map<string, string>, path: string, key: string,
                                       tmp1: string, run1: ConverterRun, tmp2: string, run2: ConverterRun)
    requires ConvertStep(cache, path, key, tmp1, run1).0.Ok?
    ensures var (r1, c1) := ConvertStep(cache, path, key, tmp1, run1);
      !RunsConverter(c1, path, key) && ConvertStep(c1, path, key, tmp2, run2) == (r1, c1)
  {
    var (r1, c1) := ConvertStep(cache, path, key, tmp1, run1);
    if RunsConverter(cache, path, key) {
      assert c1 == cache[key := r1.value];
    }
  }

  /** The lower-case form of each target extension is itself. */
  lemma TargetsLower()
    ensures Lower(".docx") == ".docx" && Lower(".pptx") == ".pptx"
  {
    assert Lower(".docx")[1] == 'd';
  }

  /** Every supported extension is a proper extension, and its target is an Office Open XML one. */
  lemma TargetsAreOoxml(ext: string)
    requires ext in OoxmlTargets
    ensures ext != "" && IsOoxml(OoxmlTargets[ext]) && IsExtension(OoxmlTargets[ext])
  {
  }

  /** The converter's output has the target extension, whatever the template's stem. */
  lemma {:induction false} ConvertedPathExt(path: string, tmpDir: string)
    requires Ext(path) in OoxmlTargets
    ensures Ext(ConvertedPath(path, tmpDir)) == OoxmlTargets[Ext(path)]
    ensures IsOoxml(Ext(ConvertedPath(path, tmpDir)))
  {
    var target := OoxmlTargets[Ext(path)];
    TargetsAreOoxml(Ext(path));
    NameParts(path);
    assert |Ext(path)| == |Suffix(path)|;
    ChildParts(tmpDir, Stem(path), target);
    TargetsLower();
  }

  /**
   * A converted file is an Office Open XML file of the target kind, so handing it back to the
   * conversion uses it as it is.
   */
  lemma {:induction false} ConvertedIsOoxml(cache: map<string, string>, path: string, key: string, tmpDir: string,
                                            run: ConverterRun, cache2: map<string, string>, key2: string,
                                            tmp2: string, run2: ConverterRun)
    requires RunsConverter(cache, path, key)
    requires ConvertStep(cache, path, key, tmpDir, run).0.Ok?
    ensures var converted := ConvertStep(cache, path, key, tmpDir, run).0.value;
      Ext(converted) == OoxmlTargets[Ext(path)] &&
      ConvertStep(cache2, converted, key2, tmp2, run2) == (Ok(converted), cache2)
  {
    var converted := ConvertedPath(path, tmpDir);
    assert ConvertStep(cache, path, key, tmpDir, run).0.value == converted;
    ConvertedPathExt(path, tmpDir);
  }

  /**
   * `_CONVERT_CACHE` together with `convert_to_ooxml_if_needed`.  `runs` records every run of the
   * converter (the resolved path and whether it produced the file); a resolved path has been
   * converted successfully once if it is cached and never otherwise.
   */
  class ConvertCache {
    var entries: map<string, string>
    ghost var runs: seq<(string, bool)>

    ghost predicate Valid()
      reads this
    {
      forall k :: Successes(runs, k) == (if k in entries then 1 else 0)
    }

    constructor()
      ensures Valid() && entries == map[] && runs == []
    {
      entries := map[];
      runs := [];
    }

    /** `convert_to_ooxml_if_needed(template_path)`, where `key` is `str(template_path.resolve())`. */
    method Convert(path: string, key: string, tmpDir: string, run: ConverterRun) returns (r: Result<string, ConvertError>)
      requires Valid()
      modifies this
      ensures Valid()
      ensures (r, entries) == ConvertStep(old(entries), path, key, tmpDir, run)
      ensures runs == old(runs) + (if RunsConverter(old(entries), path, key) then [(key, run == ConverterFinished(true))] else [])
    {
      var ext := Lower(Suffix(path));
      if ext == ".docx" || ext == ".pptx" {
        return Ok(path);
      }
      if ext !in OoxmlTargets {
        return Err(UnsupportedExtension(ext));
      }
      if key in entries {
        return Ok(entries[key]);
      }
      var target := OoxmlTargets[ext];
      SuccessesAppend(runs, (key, run == ConverterFinished(true)));
      runs := runs + [(key, run == ConverterFinished(true))];
      match run {
        case ConverterRaised(msg) =>
          return Err(ConverterFailed(msg));
        case ConverterFinished(produced) =>
          var converted := Child(tmpDir, Stem(path) + target);
          if !produced {
            return Err(ConversionFailed(converted));
          }
          entries := entries[key := converted];
          return Ok(converted);
      }
    }
  }

  /** How many runs of the converter on `key` produced a file. */
  function Successes(runs: seq<(string, bool)>, key: string): nat
  {
    if runs == [] then 0
    else Successes(runs[..|runs| - 1], key) + (if runs[|runs| - 1] == (key, true) then 1 else 0)
  }

  lemma {:induction false} SuccessesAppend(runs: seq<(string, bool)>, x: (string, bool))
    ensures forall k :: Successes(runs + [x], k) == Successes(runs, k) + (if x == (k, true) then 1 else 0)
  {
    assert (runs + [x])[..|runs|] == runs;
  }
}
