/** The script's driver: the `update_*` functions that read a file, run its rewrites and
    write it back, the loop over the feature files that skips the missing ones, and
    `main`, which runs the updates in order and stops at the first file it cannot open.
    The files are a map from their path, relative to the script's directory, to their
    content. */
module Driver {
  import opened Regex
  import opened Engine
  import Migration

  type FileMap = map<string, string>

  /** The exception that ends the run: `open` on a missing file. */
  datatype Error = FileNotFound(path: string)

  datatype Outcome = Ok(files: FileMap) | Err(error: Error)

  /** What `update_feature_files` prints for each file on its list. */
  datatype Status = Updated(path: string) | Skipped(path: string)

  const PipelineConfigPath := "src/config/pipeline_config.py"
  const MainPyPath := "main.py"
  const ClaudeMdPath := "CLAUDE.md"
  const PyprojectPath := "pyproject.toml"

  /** The rewrites of each update and the feature-file list. */
  datatype Plan = Plan(pipelineConfig: seq<Rule>, featureFiles: seq<string>,
                       features: seq<Rule>, mainPy: seq<Rule>, claudeMd: seq<Rule>,
                       pyproject: seq<Rule>)

  /** The plan `main` runs: the script's own lists as written. */
  function Script(): Plan {
    Plan(Migration.PipelineConfigRules(), Migration.FeatureFiles(), Migration.FeatureRules(),
         Migration.MainPyRules(), Migration.ClaudeMdRules(), Migration.PyprojectRules())
  }

  /** The plan with the two rule lists whose order or flags defeat their own purpose put
      right: the magnesium region rewritten after its comment block has renamed it (see
      `PrimaryRegion.RegionRuleMissesRenamedRegion`), and the `main.py` pairs matched
      case-sensitively (see `Migration.MainPyCapitalisesLowercase`). */
  function CorrectedScript(): Plan {
    Plan(Migration.CorrectedPipelineConfigRules(), Migration.FeatureFiles(),
         Migration.FeatureRules(), Migration.MainPyRulesCaseSensitive(),
         Migration.ClaudeMdRules(), Migration.PyprojectRules())
  }

  /** No feature file is listed twice, and none is one of the files the other updates
      open. */
  predicate ValidFeatureFiles(paths: seq<string>) {
    && (forall i, j :: 0 <= i < j < |paths| ==> paths[i] != paths[j])
    && PipelineConfigPath !in paths && MainPyPath !in paths
    && ClaudeMdPath !in paths && PyprojectPath !in paths
  }

  /** `update_pipeline_config`, `update_main_py`, `update_claude_md` and
      `update_pyproject_toml` (lines 11-16 and 245-248, 303-323, 325-374, 376-394): a
      missing file raises, an existing one is rewritten by the rules in order and written
      back, and no other file changes. */
  method UpdateFile(fs: FileMap, path: string, rules: seq<Rule>) returns (result: Outcome)
    ensures path !in fs <==> result.Err?
    ensures result.Err? ==> result.error == FileNotFound(path)
    ensures result.Ok? ==>
      && result.files.Keys == fs.Keys
      && result.files[path] == ApplyAll(rules, fs[path])
      && (forall p :: p in fs && p != path ==> result.files[p] == fs[p])
  {
    if path !in fs {
      return Err(FileNotFound(path));
    }
    var content := RunRules(rules, fs[path]);
    return Ok(fs[path := content]);
  }

  /** The files once `update_feature_files` has visited `paths` in order: each one that
      exists is rewritten by `rules`, the others are skipped. */
  function Sweep(fs: FileMap, paths: seq<string>, rules: seq<Rule>): FileMap
    decreases |paths|
  {
    if paths == [] then fs
    else
      var p := paths[0];
      Sweep(if p in fs then fs[p := ApplyAll(rules, fs[p])] else fs, paths[1..], rules)
  }

  /** Lines 250-301: the loop over the feature files, with the line it prints for each. */
  method UpdateFeatureFiles(fs: FileMap, paths: seq<string>, rules: seq<Rule>)
    returns (result: FileMap, log: seq<Status>)
    ensures result == Sweep(fs, paths, rules)
    ensures |log| == |paths|
    ensures forall i :: 0 <= i < |paths| ==>
      log[i] == if paths[i] in fs then Updated(paths[i]) else Skipped(paths[i])
  {
    result := fs;
    log := [];
    assert paths[0..] == paths;
    for i := 0 to |paths|
      invariant Sweep(result, paths[i..], rules) == Sweep(fs, paths, rules)
      invariant result.Keys == fs.Keys
      invariant |log| == i
      invariant forall k :: 0 <= k < i ==>
        log[k] == if paths[k] in fs then Updated(paths[k]) else Skipped(paths[k])
    {
      var p := paths[i];
      SweepStep(result, paths, rules, i);
      if p in result {
        var content := RunRules(rules, result[p]);
        result := result[p := content];
        log := log + [Updated(p)];
      } else {
        log := log + [Skipped(p)];
      }
    }
    assert paths[|paths|..] == [];
  }

  /** The sweep from position `i` visits `paths[i]` and then sweeps from `i + 1`. */
  lemma SweepStep(fs: FileMap, paths: seq<string>, rules: seq<Rule>, i: nat)
    requires i < |paths|
    ensures Sweep(fs, paths[i..], rules)
         == Sweep(if paths[i] in fs then fs[paths[i] := ApplyAll(rules, fs[paths[i]])] else fs,
                  paths[i + 1..], rules)
  {
    assert paths[i..][1..] == paths[i + 1..];
  }

  /** The sweep neither creates nor deletes a file. */
  lemma {:induction false} SweepKeys(fs: FileMap, paths: seq<string>, rules: seq<Rule>)
    ensures Sweep(fs, paths, rules).Keys == fs.Keys
    decreases |paths|
  {
    if paths != [] {
      var p := paths[0];
      SweepKeys(if p in fs then fs[p := ApplyAll(rules, fs[p])] else fs, paths[1..], rules);
    }
  }

  /** With no file listed twice, every listed file that exists is rewritten exactly once
      and every other file is left as it was. */
  lemma {:induction false} SweepRewritesListed(fs: FileMap, paths: seq<string>,
                                               rules: seq<Rule>, q: string)
    requires forall i, j :: 0 <= i < j < |paths| ==> paths[i] != paths[j]
    requires q in fs
    ensures q in Sweep(fs, paths, rules)
    ensures Sweep(fs, paths, rules)[q] == if q in paths then ApplyAll(rules, fs[q]) else fs[q]
    decreases |paths|
  {
    SweepKeys(fs, paths, rules);
    if paths != [] {
      var p := paths[0];
      var fs' := if p in fs then fs[p := ApplyAll(rules, fs[p])] else fs;
      assert forall i, j :: 0 <= i < j < |paths[1..]| ==> paths[1..][i] != paths[1..][j] by {
        forall i, j | 0 <= i < j < |paths[1..]|
          ensures paths[1..][i] != paths[1..][j]
        {
          assert paths[1..][i] == paths[i + 1] && paths[1..][j] == paths[j + 1];
        }
      }
      SweepRewritesListed(fs', paths[1..], rules, q);
      assert q in paths <==> q == p || q in paths[1..];
    }
  }

  /** `SweepRewritesListed` for every file at once. */
  lemma SweepContents(fs: FileMap, paths: seq<string>, rules: seq<Rule>)
    requires forall i, j :: 0 <= i < j < |paths| ==> paths[i] != paths[j]
    ensures Sweep(fs, paths, rules).Keys == fs.Keys
    ensures forall q :: q in fs ==>
      Sweep(fs, paths, rules)[q] == if q in paths then ApplyAll(rules, fs[q]) else fs[q]
  {
    SweepKeys(fs, paths, rules);
    forall q | q in fs
      ensures Sweep(fs, paths, rules)[q] == if q in paths then ApplyAll(rules, fs[q]) else fs[q]
    {
      SweepRewritesListed(fs, paths, rules, q);
    }
  }

  /** The script's feature-file list is valid. */
  lemma FeatureFilesValid()
    ensures ValidFeatureFiles(Migration.FeatureFiles())
  {
  }

  /** The first file that `main` opens and does not find, in the order it opens them. */
  function FirstMissing(fs: FileMap): Option<Error> {
    if PipelineConfigPath !in fs then Some(FileNotFound(PipelineConfigPath))
    else if MainPyPath !in fs then Some(FileNotFound(MainPyPath))
    else if ClaudeMdPath !in fs then Some(FileNotFound(ClaudeMdPath))
    else if PyprojectPath !in fs then Some(FileNotFound(PyprojectPath))
    else None
  }

  /** `path`, if it exists, holds `rules` applied to its old content when the run got as far
      as its update (`reached`), and its old content otherwise. */
  predicate RewrittenIf(fs: FileMap, result: FileMap, path: string, rules: seq<Rule>,
                        reached: bool)
  {
    path in fs ==> path in result && result[path] == if reached then ApplyAll(rules, fs[path]) else fs[path]
  }

  /** `main` (lines 396-426): the five updates in order. A missing required file raises,
      which ends the run with the updates before it already written; a missing feature
      file is only skipped. No file is created or deleted, and no file outside the plan
      changes. */
  method Migrate(fs: FileMap, plan: Plan) returns (result: FileMap, error: Option<Error>)
    requires ValidFeatureFiles(plan.featureFiles)
    ensures error == FirstMissing(fs)
    ensures result.Keys == fs.Keys
    ensures var configFound := PipelineConfigPath in fs;
      var mainFound := configFound && MainPyPath in fs;
      var claudeFound := mainFound && ClaudeMdPath in fs;
      && RewrittenIf(fs, result, PipelineConfigPath, plan.pipelineConfig, true)
      && (forall p :: p in plan.featureFiles ==> RewrittenIf(fs, result, p, plan.features, configFound))
      && RewrittenIf(fs, result, MainPyPath, plan.mainPy, configFound)
      && RewrittenIf(fs, result, ClaudeMdPath, plan.claudeMd, mainFound)
      && RewrittenIf(fs, result, PyprojectPath, plan.pyproject, claudeFound)
    ensures forall p ::
      (&& p in fs && p !in plan.featureFiles && p != PipelineConfigPath
       && p != MainPyPath && p != ClaudeMdPath && p != PyprojectPath) ==> result[p] == fs[p]
  {
    var o := UpdateFile(fs, PipelineConfigPath, plan.pipelineConfig);
    if o.Err? {
      return fs, Some(o.error);
    }
    var swept, log := UpdateFeatureFiles(o.files, plan.featureFiles, plan.features);
    SweepContents(o.files, plan.featureFiles, plan.features);
    result := swept;
    o := UpdateFile(result, MainPyPath, plan.mainPy);
    if o.Err? {
      return result, Some(o.error);
    }
    result := o.files;
    o := UpdateFile(result, ClaudeMdPath, plan.claudeMd);
    if o.Err? {
      return result, Some(o.error);
    }
    result := o.files;
    o := UpdateFile(result, PyprojectPath, plan.pyproject);
    if o.Err? {
      return result, Some(o.error);
    }
    result := o.files;
    error := None;
  }
}
