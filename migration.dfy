/** The migration's rewrites: the rule lists that `update_pipeline_config`,
    `update_feature_files`, `update_main_py`, `update_claude_md` and
    `update_pyproject_toml` apply, transcribed text for text (the regular expressions
    with their escapes removed), and what can be shown about the individual rules. */
module Migration {
  import Literal
  import PrimaryRegion
  import FeatureMethod
  import opened Regex
  import opened Engine

  /** `re.sub(r'x', repl, content)` for a pattern without metacharacters and no flags. */
  function Plain(x: string, repl: string): Rule {
    ReSub(LitPattern(x, false), repl, 0)
  }

  const OldRawDataDir := "return Path(self.__dict__.get('_" +
                         "raw_data_dir', f'{get_base_path(" + ")}/data/raw/newdata'))"
  const NewRawDataDir := "return Path(self.__dict__.get('_" +
                         "raw_data_dir', f'{get_base_path(" +
                         ")}/data/raw/data_5278_Phase3'))"
  const OldReferenceDataPath := "return Path(self.__dict__.get('_" +
                                "reference_data_path', f'{get_bas" +
                                "e_path()}/data/reference_data/la" +
                                "b_Element_Rough_Nico.xlsx'))"
  const NewReferenceDataPath := "return Path(self.__dict__.get('_" +
                                "reference_data_path', f'{get_bas" +
                                "e_path()}/data/reference_data/Fi" +
                                "nal_Lab_Data_Nico_New.xlsx'))"

  /** The `N_I_help` region line with its final newline: group 1 of line 112 and the
      newline after it. */
  function NIHelpRegion(): Pattern {
    Pattern([Lit("PeakRegion(element=\"N_I_help\","), AnyLazy, Lit("],),\n")], false, false)
  }

  /** The line inserted after it. */
  const KIHelpLine := KIHelpHead + "K_I_help" + KIHelpTail
  const KIHelpHead := "        PeakRegion(element=\""
  const KIHelpTail := "\", lower_wavelength=768.79, " + "upper_wavelength=770.79, center_" +
                      "wavelengths=[769.79]),\n"

  /** Deletes the block of further potassium lines, from the whitespace before its
      heading comment to the end of the `K_I_691` region (lines 67-72). */
  function AdditionalPotassiumLinesDeletion(): Rule {
    ReSub(
      Pattern(
        [Spaces,
        Lit("# Additional potassium lines"),
        AnyLazy,
        Lit("PeakRegion(element=\"K_I_691\""),
        AnyLazy,
        Lit("],),\n")],
        true, false),
      "",
      0)
  }

  /** Deletes the phosphorus region and the comment above it (lines 101-105); without
      DOTALL the region must sit on one line. */
  function PhosphorousRegionDeletion(): Rule {
    ReSub(
      Pattern(
        [Spaces,
        Lit("# Phosphorous region - kept " + "from original pipeline for " +
            "reference and comparative " + "feature engineering"),
        Spaces,
        Lit("PeakRegion(element=\"P_I_secondar" + "y\""),
        AnyLazy,
        Lit("],),\n")],
        false, false),
      "",
      0)
  }

  /** Adds the `K_I_help` region after the `N_I_help` one unless `K_I_help` already
      appears (lines 107-114). */
  function KIHelpInsertion(): Rule {
    InsertAfter("K_I_help", NIHelpRegion(), KIHelpLine)
  }

  /** The default raw-data directory, rewritten at most twice (lines 230-235). */
  function RawDataDirDefault(): Rule {
    ReSub(LitPattern(OldRawDataDir, false), NewRawDataDir, 2)
  }

  /** The default reference-data path, rewritten at most twice (lines 238-243). */
  function ReferenceDataPathDefault(): Rule {
    ReSub(LitPattern(OldReferenceDataPath, false), NewReferenceDataPath, 2)
  }

  /** Rewrites `MagnesiumLoss` to itself (lines 363-367). */
  function MagnesiumLossRule(): Rule {
    Plain(
      "MagnesiumLoss",
      "MagnesiumLoss")
  }

  /** Lines 19-38: the project name, target column, header and concentration comments. */
  function NamingRules(): seq<Rule> {
    [
      // line 19
      StrReplace(
        "project_name: str = \"PotassiumPr" + "ediction\"",
        "project_name: str = \"MagnesiumPr" + "ediction\""),
      // line 22
      StrReplace(
        "target_column: str = \"Potassium\"",
        "target_column: str = \"Magnesium " + "%\""),
      // lines 25-28
      StrReplace(
        "Centralized Configuration " + "Management for the Potassium " +
        "Prediction ML Pipeline.",
        "Centralized Configuration " + "Management for the Magnesium " +
        "Prediction ML Pipeline."),
      // lines 31-35
      Plain(
        "# Based on potassium concentrati" + "on ranges (typical values)",
        "# Based on magnesium concentrati" + "on ranges (typical values)"),
      // line 36
      Plain(
        "15% K - low end",
        "15% Mg - low end"),
      // line 37
      Plain(
        "35% K - high end",
        "35% Mg - high end"),
      // line 38
      Plain(
        "45% K - very high",
        "45% Mg - very high")
    ]
  }

  /** Lines 41-114: the primary region and the removed potassium lines, then the widened
      magnesium lines, the removed phosphorus line and the `K_I_help` helper region. */
  function RegionRules(): seq<Rule> {
    PrimaryRegionRules() + MagnesiumLineRules()
  }

  /** Lines 41-72: the primary region and the removed potassium lines. */
  function PrimaryRegionRules(): seq<Rule> {
    [
      // lines 41-54
      PrimaryRegion.MagnesiumCommentRule(),
      // lines 57-61
      PrimaryRegion.PotassiumRegionRule(),
      // lines 67-72
      AdditionalPotassiumLinesDeletion()
    ]
  }

  /** Lines 75-114: the widened magnesium lines, the removed phosphorus line and the
      `K_I_help` helper region. */
  function MagnesiumLineRules(): seq<Rule> {
    [
      // lines 75-79
      Plain(
        "# Keep magnesium lines for " + "context and potential interferen" +
        "ce detection",
        "# Primary magnesium spectral " + "lines"),
      // lines 82-86
      Plain(
        "PeakRegion(element=\"Mg_I_285\", " + "lower_wavelength=283.5, upper_wa" +
        "velength=286.5, center_wavelengt" + "hs=[285.2]),  # WIDENED: 1.5\U{2192}3.0" +
        " nm",
        "PeakRegion(element=\"Mg_I_285\", " + "lower_wavelength=284.5, upper_wa" +
        "velength=286.0, center_wavelengt" + "hs=[285.2]),"),
      // lines 88-92
      Plain(
        "PeakRegion(element=\"Mg_I_383\", " + "lower_wavelength=382.0, upper_wa" +
        "velength=385.0, center_wavelengt" + "hs=[383.8]),  # WIDENED: 1.5\U{2192}3.0" +
        " nm",
        "PeakRegion(element=\"Mg_I_383\", " + "lower_wavelength=383.0, upper_wa" +
        "velength=384.5, center_wavelengt" + "hs=[383.8]),"),
      // lines 94-98
      Plain(
        "PeakRegion(element=\"Mg_II\", " + "lower_wavelength=278.0, upper_wa" +
        "velength=281.5, center_wavelengt" + "hs=[279.55, 279.80, 280.27]), " +
        " # WIDENED: 2.0\U{2192}3.5 nm (3 " + "peaks)",
        "PeakRegion(element=\"Mg_II\", " + "lower_wavelength=279.0, upper_wa" +
        "velength=281.0, center_wavelengt" + "hs=[279.55, 279.80, 280.27]),"),
      // lines 101-105
      PhosphorousRegionDeletion(),
      // lines 107-114
      KIHelpInsertion()
    ]
  }

  /** Lines 117-175: the feature-configuration flags and their comments. */
  function FlagRules(): seq<Rule> {
    FlagSwitchRules() + FeatureMethod.MethodRules() + [EnhancedRegionsRule()]
  }

  /** Lines 117-156: one rule per switch, each rewriting the switch's line. */
  function FlagSwitchRules(): seq<Rule> {
    [
      // lines 117-121
      Plain(
        "# Feature configuration flags " + "- OPTIMIZED FOR POTASSIUM",
        "# Feature configuration flags " + "- OPTIMIZED FOR MAGNESIUM"),
      // lines 122-126
      Plain(
        "enable_molecular_bands: bool " + "= False   # CN/NH/NO bands " +
        "can indicate organic matter " + "affecting K",
        "enable_molecular_bands: bool " + "= False   # CN/NH/NO bands " +
        "can indicate organic matter " + "affecting Mg"),
      // lines 127-131
      Plain(
        "enable_macro_elements: bool " + "= True    # S, P, Ca, Mg - " +
        "critical for K interactions",
        "enable_macro_elements: bool " + "= True    # S, P, Ca, K - " +
        "critical for Mg interactions"),
      // lines 132-136
      Plain(
        "enable_micro_elements: bool " + "= True    # Fe, Mn, B, Zn " +
        "- compete with K uptake",
        "enable_micro_elements: bool " + "= True    # Fe, Mn, B, Zn " +
        "- compete with Mg uptake"),
      // lines 137-141
      Plain(
        "enable_oxygen_hydrogen: bool " + "= True   # H/O ratios affect " + "K compounds",
        "enable_oxygen_hydrogen: bool " + "= False   # H/O ratios affect " +
        "Mg compounds"),
      // lines 142-146
      Plain(
        "enable_advanced_ratios: bool " + "= True   # K/Ca, K/Mg, K/P " +
        "ratios are critical",
        "enable_advanced_ratios: bool " + "= True   # Mg/Ca, Mg/K ratios " +
        "are critical"),
      // lines 147-151
      Plain(
        "enable_spectral_patterns: " + "bool = True # Peak shapes " +
        "help identify K compounds",
        "enable_spectral_patterns: " + "bool = True # Peak shapes " +
        "help identify Mg compounds"),
      // lines 152-156
      Plain(
        "enable_interference_correction: " + "bool = True  # Fe/Mn can interfe" +
        "re with K lines",
        "enable_interference_correction: " + "bool = False  # Fe/Mn can " +
        "interfere with Mg lines")
    ]
  }

  /** Lines 171-175: the comment above the enhanced spectral regions. */
  function EnhancedRegionsRule(): Rule {
    Plain(
      "# Enhanced spectral regions " + "for crop potassium prediction",
      "# Enhanced spectral regions " + "for crop magnesium prediction")
  }

  /** Lines 178-243: the macro-element note, the strategy method, the region list, the
      feature strategies and the data paths. */
  function StrategyAndPathRules(): seq<Rule> {
    [
      // lines 178-183
      ReSub(
        Pattern(
          [Lit("# Note: Primary K lines"),
          AnyLazy,
          Lit("# Additional K lines for macro " + "analysis if needed:"),
          AnyLazy,
          Lit("# PeakRegion(element=\"K_I_404_ma" + "cro\""),
          AnyLazy,
          Lit("],),")],
          true, false),
        "# Note: Primary Mg lines are " + "already defined in magnesium_reg" +
        "ion and context_regions\n  " + "      # to avoid duplication. " +
        "If needed for macro_elements " + "analysis, uncomment below:\n" +
        "        # PeakRegion(element=\"Mg" + "_I_macro\", lower_wavelength=516." +
        "0, upper_wavelength=519.0, " + "center_wavelengths=[516.7, " +
        "517.3, 518.4]),\n        # " + "PeakRegion(element=\"Mg_II_macro\"" +
        ", lower_wavelength=279.0, " + "upper_wavelength=281.0, center_w" +
        "avelengths=[279.55, 279.80, " + "280.27]),",
        0),
      // lines 186-199
      ReSub(
        Pattern(
          [Lit("if strategy == \"K_only\":"),
          AnyLazy,
          Lit("# Only K regions + C for K_C_rat" + "io"),
          Spaces,
          Lit("k_regions = [self.potassium_regi" + "on]"),
          AnyLazy,
          Lit("return k_regions")],
          true, false),
        "if strategy == \"Mg_only\":\n" + "            # Only Mg regions " +
        "+ C for Mg_C_ratio\n       " + "     mg_regions = [self.magnesiu" +
        "m_region]\n            mg_regions" + ".extend([r for r in self.context" +
        "_regions if r.element.startswith" + "(\"Mg_I\") or r.element.startswith" +
        "(\"Mg_II\")])\n            # " + "Add C_I for Mg_C_ratio calculati" +
        "on\n            c_region = " + "next((r for r in self.context_re" +
        "gions if r.element == \"C_I\"), " + "None)\n            if c_region:\n" +
        "                mg_regions.appen" + "d(c_region)\n            return " +
        "mg_regions",
        0),
      // lines 202-206
      Plain(
        "regions = [self.potassium_region" + "] + self.context_regions",
        "regions = [self.magnesium_region" + "] + self.context_regions"),
      // lines 209-213
      ReSub(
        Pattern(
          [Lit("#feature_strategies: List[str] " + "= [\"K_only\", \"simple_only\", " +
               "\"full_context\"]"),
          Spaces,
          Lit("feature_strategies: List[str] " + "= [\"K_only\"]")],
          false, false),
        "#feature_strategies: List[str] " + "= [\"Mg_only\", \"simple_only\", " +
        "\"full_context\"]\n    feature_stra" + "tegies: List[str] = [\"simple_onl" +
        "y\"]",
        0),
      // lines 216-220
      Plain(
        "_raw_data_dir=str(BASE_PATH " + "/ \"data\" / \"raw\" / \"newdata\")",
        "_raw_data_dir=str(BASE_PATH " + "/ \"data\" / \"raw\" / \"data_5278_Ph" +
        "ase3\")"),
      // lines 223-227
      Plain(
        "_reference_data_path=str(BASE_PA" + "TH / \"data\" / \"reference_data\" " +
        "/ \"lab_Element_Rough_Nico.xlsx\")",
        "_reference_data_path=str(BASE_PA" + "TH / \"data\" / \"reference_data\" " +
        "/ \"Final_Lab_Data_Nico_New.xlsx\"" + ")"),
      // lines 230-235
      RawDataDirDefault(),
      // lines 238-243
      ReferenceDataPathDefault()
    ]
  }

  /** The rewrites of `update_pipeline_config`, in the order they run. */
  function PipelineConfigRules(): seq<Rule> {
    NamingRules() + RegionRules() + FlagRules() + StrategyAndPathRules()
  }

  /** Lines 41-72 with the definition rewritten under the name lines 41-54 give it. */
  function CorrectedPrimaryRegionRules(): seq<Rule> {
    [PrimaryRegion.MagnesiumCommentRule(), PrimaryRegion.MagnesiumRegionRule(),
     AdditionalPotassiumLinesDeletion()]
  }

  /** Lines 117-175 with the flag's line rewritten under the name lines 159-163 give it. */
  function CorrectedFlagRules(): seq<Rule> {
    FlagSwitchRules() + FeatureMethod.CorrectedMethodRules() + [EnhancedRegionsRule()]
  }

  /** The rewrites of `update_pipeline_config` with those two rules corrected. */
  function CorrectedPipelineConfigRules(): seq<Rule> {
    NamingRules() + (CorrectedPrimaryRegionRules() + MagnesiumLineRules()) + CorrectedFlagRules()
    + StrategyAndPathRules()
  }

  /** The files `update_feature_files` visits, relative to the script's directory. */
  function FeatureFiles(): (paths: seq<string>)
    ensures forall i, j :: 0 <= i < j < |paths| ==> paths[i] != paths[j]
  {
    [
      "src/features/feature_engineering" + ".py",
      "src/features/enhanced_features.p" + "y",
      "src/features/concentration_featu" + "res.py",
      "src/features/feature_helpers.py",
      "src/features/parallel_feature_en" + "gineering.py"
    ]
  }

  /** Its `(pattern, replacement)` pairs, all plain text. */
  function FeatureReplacements(): seq<(string, string)> {
    [
      ("K_only", "Mg_only"),
      ("k_only", "mg_only"),
      ("potassium_region", "magnesium_region"),
      ("use_focused_potassium_features", "use_focused_magnesium_features"),
      ("Potassium-specific", "Magnesium-specific"),
      ("potassium-specific", "magnesium-specific"),
      ("potassium concentration", "magnesium concentration"),
      ("Potassium concentration", "Magnesium concentration"),
      ("K concentration", "Mg concentration"),
      ("K_C_ratio", "Mg_C_ratio"),
      ("K/C", "Mg/C")
    ]
  }

  function FeatureRules(): seq<Rule> {
    PlainRules(FeatureReplacements(), false)
  }

  /** The `(pattern, replacement)` pairs of `update_main_py`, all plain text. */
  function MainPyReplacements(): seq<(string, string)> {
    [
      ("Potassium Prediction ML Pipeline", "Magnesium Prediction ML Pipeline"),
      ("potassium prediction", "magnesium prediction"),
      ("Potassium concentration", "Magnesium concentration"),
      ("potassium concentration", "magnesium concentration")
    ]
  }

  /** `update_main_py` as written: every pair under IGNORECASE. */
  function MainPyRules(): seq<Rule> {
    PlainRules(MainPyReplacements(), true)
  }

  /** The same pairs matched case-sensitively, so that each spelling keeps its own
      replacement. */
  function MainPyRulesCaseSensitive(): seq<Rule> {
    PlainRules(MainPyReplacements(), false)
  }

  /** Rewrites the `K_only` strategy summary of the documentation: from its heading to the
      first `)` after it, across lines (DOTALL), lines 348-353. */
  function StrategySummaryRule(): Rule {
    ReSub(
      Pattern([Lit(StrategySummaryHeading), AnyLazy, Lit(")")], true, false),
      "- **Mg_only**: Focus on magnesiu" + "m spectral regions (516-519nm " +
      "and 279-286nm)",
      0)
  }

  const StrategySummaryHeading := "- **K_only**: Focus on potassium" + " spectral regions"

  /** Rewrites the project description, whatever it said (line 385). */
  function DescriptionRule(): Rule {
    ReSub(
      Pattern([Lit("description = \""), AnyLazy, Lit("\"")], false, false),
      "description = \"LIBS-based " + "magnesium concentration predicti" + "on pipeline\"",
      0)
  }

  /** The rewrites of `update_claude_md`, in the order they run. */
  function ClaudeMdRules(): seq<Rule> {
    [
      // lines 333-338
      ReSub(
        LitPattern("This is a machine learning " + "pipeline for predicting potassiu" +
                   "m concentration from LIBS", true),
        "This is a machine learning " + "pipeline for predicting magnesiu" +
        "m concentration from LIBS",
        0),
      // lines 340-345
      ReSub(
        LitPattern("potassium percentage", true),
        "magnesium percentage",
        0),
      // lines 348-353
      StrategySummaryRule(),
      // lines 356-360
      Plain(
        "(766-770nm and 404nm for potassi" + "um)",
        "(516-519nm and 279-286nm for " + "magnesium)"),
      // lines 363-367
      MagnesiumLossRule()
    ]
  }

  /** The two rewrites of `update_pyproject_toml`. */
  function PyprojectRules(): seq<Rule> {
    [
      Plain("name = \"potassium-prediction-pip" + "eline\"",
            "name = \"magnesium-prediction-pip" + "eline\""),
      DescriptionRule()
    ]
  }

  /** The inserted line carries the guard's marker. */
  lemma KIHelpLineHasMarker()
    ensures Literal.Contains(KIHelpLine, "K_I_help")
  {
    Literal.OccursInMiddle(KIHelpHead, "K_I_help", KIHelpTail);
  }

  /** Lines 107-114: content that already names `K_I_help`, or has no `N_I_help` region
      line, is left as it is. */
  lemma KIHelpInsertionSkips(s: string)
    ensures Literal.Contains(s, "K_I_help") ==> Apply(KIHelpInsertion(), s) == s
    ensures Search(NIHelpRegion(), s).None? ==> Apply(KIHelpInsertion(), s) == s
  {
    GuardedInsertionSkips("K_I_help", NIHelpRegion(), KIHelpLine, s);
  }

  /** Otherwise, with the first `N_I_help` region line at `i` (length `n`, its newline
      included), the `K_I_help` line goes in right after it, everything before it is kept,
      and the content then names `K_I_help`. */
  lemma KIHelpInsertionPlaces(s: string, i: nat, n: nat)
    requires !Literal.Contains(s, "K_I_help") && Search(NIHelpRegion(), s) == Some((i, n))
    ensures var r := Apply(KIHelpInsertion(), s);
      && i + n + |KIHelpLine| <= |r|
      && r[..i + n] == s[..i + n]
      && r[i + n..i + n + |KIHelpLine|] == KIHelpLine
      && Literal.Contains(r, "K_I_help")
  {
    KIHelpLineHasMarker();
    InsertAfterFirstAnchor("K_I_help", NIHelpRegion(), KIHelpLine, s, i, n);
    GuardedInsertionAdds("K_I_help", NIHelpRegion(), KIHelpLine, s, i, n);
  }

  /** Because the inserted line names `K_I_help`, a second run inserts nothing. */
  lemma KIHelpInsertionIdempotent(s: string)
    ensures Apply(KIHelpInsertion(), Apply(KIHelpInsertion(), s)) == Apply(KIHelpInsertion(), s)
  {
    KIHelpLineHasMarker();
    GuardedInsertionIdempotent("K_I_help", NIHelpRegion(), KIHelpLine, s);
  }

  /** Lines 230-235: with `count=2`, the first two occurrences of the old default (or as
      many as there are) are replaced and the rest of the file is kept byte for byte. */
  lemma RawDataDirAtMostTwice(s: string)
    ensures var e := Literal.Cut(s, OldRawDataDir, 2);
      && Apply(RawDataDirDefault(), s)
         == Literal.ReplaceAll(s[..e], OldRawDataDir, NewRawDataDir) + s[e..]
      && Literal.Occurrences(s[..e], OldRawDataDir)
         == Literal.Min(2, Literal.Occurrences(s, OldRawDataDir))
  {
    LimitedSubKeepsRest(OldRawDataDir, NewRawDataDir, 2, s);
  }

  /** Lines 238-243, the same for the reference-data default. */
  lemma ReferenceDataPathAtMostTwice(s: string)
    ensures var e := Literal.Cut(s, OldReferenceDataPath, 2);
      && Apply(ReferenceDataPathDefault(), s)
         == Literal.ReplaceAll(s[..e], OldReferenceDataPath, NewReferenceDataPath) + s[e..]
      && Literal.Occurrences(s[..e], OldReferenceDataPath)
         == Literal.Min(2, Literal.Occurrences(s, OldReferenceDataPath))
  {
    LimitedSubKeepsRest(OldReferenceDataPath, NewReferenceDataPath, 2, s);
  }

  /** The two deletions of lines 67-72 and 101-105 never add text, and they remove some
      exactly when their block is present. */
  lemma RegionDeletionsOnlyRemove(s: string)
    ensures |Apply(AdditionalPotassiumLinesDeletion(), s)| <= |s|
    ensures |Apply(AdditionalPotassiumLinesDeletion(), s)| < |s|
        <==> Search(AdditionalPotassiumLinesDeletion().pattern, s).Some?
    ensures |Apply(PhosphorousRegionDeletion(), s)| <= |s|
    ensures |Apply(PhosphorousRegionDeletion(), s)| < |s|
        <==> Search(PhosphorousRegionDeletion().pattern, s).Some?
  {
    DeletionNeverGrows(AdditionalPotassiumLinesDeletion().pattern, 0, s);
    DeletionNeverGrows(PhosphorousRegionDeletion().pattern, 0, s);
  }

  /** Lines 363-367 rewrite `MagnesiumLoss` to itself: the identity on every input. */
  lemma MagnesiumLossRuleIsIdentity(s: string)
    ensures Apply(MagnesiumLossRule(), s) == s
  {
    LiteralSubUnchangedIff("MagnesiumLoss", "MagnesiumLoss", s);
  }

  /** The feature-file loop of lines 295-296 is `str.replace` over its pairs in order:
      none of the patterns holds a metacharacter. */
  lemma FeatureRulesAreReplaces(s: string)
    ensures ApplyAll(FeatureRules(), s) == ReplaceEach(FeatureReplacements(), s)
  {
    PlainRulesAreReplaces(FeatureReplacements(), s);
  }

  /** Line 385: the description that is replaced runs from `description = "` to the first
      quote after it, on the same line. */
  lemma DescriptionMatchIsOneValue(t: string)
    ensures var p := DescriptionRule().pattern;
      MatchAt(p, t).Some? ==>
        var n := MatchAt(p, t).value;
        && "description = \"" <= t
        && 16 <= n && t[n - 1] == '"'
        && (forall i :: 15 <= i < n - 1 ==> t[i] != '"' && t[i] != '\n')
  {
    var p := DescriptionRule().pattern;
    LazyBetween("description = \"", "\"", false, false, t);
    if MatchAt(p, t).Some? {
      var n := MatchAt(p, t).value;
      forall i | 15 <= i < n - 1
        ensures t[i] != '"'
      {
        assert !LitPrefix("\"", t[i..], false);
        assert t[i..][..1] == [t[i]];
      }
      assert t[n - 1..][..1] == [t[n - 1]];
    }
  }

  /** Lines 348-353: the strategy description that is replaced runs to the first `)` after
      its heading, across lines if need be (DOTALL). */
  lemma StrategyMatchEndsAtFirstParen(t: string)
    ensures var p := StrategySummaryRule().pattern;
      MatchAt(p, t).Some? ==>
        var a := StrategySummaryHeading;
        var n := MatchAt(p, t).value;
        && a <= t
        && |a| + 1 <= n && t[n - 1] == ')'
        && (forall i :: |a| <= i < n - 1 ==> t[i] != ')')
  {
    var a := StrategySummaryHeading;
    var p := StrategySummaryRule().pattern;
    LazyBetween(a, ")", true, false, t);
    if MatchAt(p, t).Some? {
      var n := MatchAt(p, t).value;
      forall i | |a| <= i < n - 1
        ensures t[i] != ')'
      {
        assert !LitPrefix(")", t[i..], false);
        assert t[i..][..1] == [t[i]];
      }
      assert t[n - 1..][..1] == [t[n - 1]];
    }
  }

  // The main.py pairs on the text "potassium concentration", one pair at a time, with
  // and without IGNORECASE.

  lemma TitleAbsent(ic: bool, s: string)
    requires s == "potassium concentration"
    ensures Sub(LitPattern("Potassium Prediction ML Pipeline", ic),
                Fixed("Magnesium Prediction ML Pipeline"), s, 0) == s
  {
    ScanShort("Potassium Prediction ML Pipeline", ic, s, Fixed("Magnesium Prediction ML Pipeline"), All);
  }

  lemma PredictionAbsentAt(ic: bool, s: string, j: nat)
    requires s == "potassium concentration" && j < 4
    ensures !LitPrefix("potassium prediction", s[j..], ic)
  {
    var x := "potassium prediction";
    var u := s[j..][..20];
    if j == 0 {
      assert u[10] == s[10];
      assert Fold(x, ic)[10] != Fold(u, ic)[10];
    } else {
      assert u[0] == s[j];
      assert Fold(x, ic)[0] != Fold(u, ic)[0];
    }
  }

  lemma PredictionAbsent(ic: bool, s: string)
    requires s == "potassium concentration"
    ensures Sub(LitPattern("potassium prediction", ic), Fixed("magnesium prediction"), s, 0) == s
  {
    forall j | 0 <= j < 4
      ensures !LitPrefix("potassium prediction", s[j..], ic)
    {
      PredictionAbsentAt(ic, s, j);
    }
    ScanNoStartBefore("potassium prediction", ic, s, Fixed("magnesium prediction"), 4);
  }

  /** Under IGNORECASE, the capitalised text starts the lowercase one. */
  lemma CapitalisedFoldsToLowercase(s: string)
    requires s == "potassium concentration"
    ensures LitPrefix("Potassium concentration", s, true)
  {
    var r := "otassium concentration";
    assert "Potassium concentration" == ['P'] + r;
    assert s == ['p'] + r;
    FoldFirstCase('P', 'p', r);
  }

  /** Under IGNORECASE, the capitalised pattern matches the lowercase text. */
  lemma CapitalisedMatchesLowercase(s: string)
    requires s == "potassium concentration"
    ensures Sub(LitPattern("Potassium concentration", true), Fixed("Magnesium concentration"), s, 0)
         == "Magnesium concentration"
  {
    CapitalisedFoldsToLowercase(s);
    ScanWhole("Potassium concentration", true, s, Fixed("Magnesium concentration"));
  }

  /** Matched case-sensitively, it does not. */
  lemma CapitalisedMissesLowercase(s: string)
    requires s == "potassium concentration"
    ensures Sub(LitPattern("Potassium concentration", false), Fixed("Magnesium concentration"), s, 0) == s
  {
    assert s[0..][..23][0] != "Potassium concentration"[0];
    assert !LitPrefix("Potassium concentration", s[0..], false);
    ScanNoStartBefore("Potassium concentration", false, s, Fixed("Magnesium concentration"), 1);
  }

  /** What the capitalised rewrite left behind holds no lowercase spelling for the last
      pair to find. */
  lemma LowercaseAbsentAfter(s: string)
    requires s == "Magnesium concentration"
    ensures Sub(LitPattern("potassium concentration", true), Fixed("magnesium concentration"), s, 0) == s
  {
    var x := "potassium concentration";
    assert Fold(x, true)[0] != Fold(s[0..][..23], true)[0];
    assert !LitPrefix(x, s[0..], true);
    ScanNoStartBefore(x, true, s, Fixed("magnesium concentration"), 1);
  }

  /** The last pair rewrites the lowercase spelling when it gets to see it. */
  lemma LowercaseRewritten(s: string)
    requires s == "potassium concentration"
    ensures Sub(LitPattern("potassium concentration", false), Fixed("magnesium concentration"), s, 0)
         == "magnesium concentration"
  {
    LiteralSubIsReplace("potassium concentration", "magnesium concentration", s, All);
    assert s[23..] == [];
  }

  /** The four `re.sub` calls of `update_main_py`, spelled out. */
  lemma MainPyRulesSpelledOut(ic: bool)
    ensures PlainRules(MainPyReplacements(), ic)
         == [ReSub(LitPattern("Potassium Prediction ML Pipeline", ic), "Magnesium Prediction ML Pipeline", 0),
             ReSub(LitPattern("potassium prediction", ic), "magnesium prediction", 0),
             ReSub(LitPattern("Potassium concentration", ic), "Magnesium concentration", 0),
             ReSub(LitPattern("potassium concentration", ic), "magnesium concentration", 0)]
  {
  }

  /** Each as-written step on the lowercase spelling: the first two pairs do not occur,
      the third (under IGNORECASE) takes it, and the fourth no longer finds anything. */
  lemma MainPyStepsAsWritten(s: string)
    requires s == "potassium concentration"
    ensures Apply(MainPyRules()[0], s) == s
    ensures Apply(MainPyRules()[1], s) == s
    ensures Apply(MainPyRules()[2], s) == "Magnesium concentration"
    ensures Apply(MainPyRules()[3], "Magnesium concentration") == "Magnesium concentration"
  {
    TitleAbsent(true, s);
    PredictionAbsent(true, s);
    CapitalisedMatchesLowercase(s);
    LowercaseAbsentAfter("Magnesium concentration");
    MainPyRulesSpelledOut(true);
  }

  /** As written, `update_main_py` turns the lowercase "potassium concentration" into the
      capitalised "Magnesium concentration": under IGNORECASE the third pair takes every
      spelling, so the fourth never fires. */
  lemma MainPyCapitalisesLowercase(s: string)
    requires s == "potassium concentration"
    ensures ApplyAll(MainPyRules(), s) == "Magnesium concentration"
  {
    MainPyStepsAsWritten(s);
    assert |MainPyRules()| == 4;
    ApplyAllFour(MainPyRules(), s, s, s, "Magnesium concentration", "Magnesium concentration");
  }

  /** Each case-sensitive step on the lowercase spelling: only the fourth pair occurs. */
  lemma MainPyStepsCaseSensitive(s: string)
    requires s == "potassium concentration"
    ensures Apply(MainPyRulesCaseSensitive()[0], s) == s
    ensures Apply(MainPyRulesCaseSensitive()[1], s) == s
    ensures Apply(MainPyRulesCaseSensitive()[2], s) == s
    ensures Apply(MainPyRulesCaseSensitive()[3], s) == "magnesium concentration"
  {
    TitleAbsent(false, s);
    PredictionAbsent(false, s);
    CapitalisedMissesLowercase(s);
    LowercaseRewritten(s);
    MainPyRulesSpelledOut(false);
  }

  /** Matched case-sensitively, the lowercase spelling gets the lowercase replacement. */
  lemma MainPyCaseSensitiveKeepsCase(s: string)
    requires s == "potassium concentration"
    ensures ApplyAll(MainPyRulesCaseSensitive(), s) == "magnesium concentration"
  {
    MainPyStepsCaseSensitive(s);
    assert |MainPyRulesCaseSensitive()| == 4;
    ApplyAllFour(MainPyRulesCaseSensitive(), s, s, s, s, "magnesium concentration");
  }

  /** And on every input the case-sensitive list is `str.replace` of each pair in turn,
      so every pair rewrites exactly its own spelling. */
  lemma MainPyCaseSensitiveIsReplaces(s: string)
    ensures ApplyAll(MainPyRulesCaseSensitive(), s) == ReplaceEach(MainPyReplacements(), s)
  {
    PlainRulesAreReplaces(MainPyReplacements(), s);
  }

  /** Under IGNORECASE the lowercase pair matches its own spelling too. */
  lemma LowercaseFoldsItself(s: string)
    requires s == "potassium concentration"
    ensures Sub(LitPattern("potassium concentration", true), Fixed("magnesium concentration"), s, 0)
         == "magnesium concentration"
  {
    assert s[..|s|] == s;
    ScanWhole("potassium concentration", true, s, Fixed("magnesium concentration"));
  }

  /** What the lowercase rewrite left behind holds no spelling for the capitalised pair. */
  lemma CapitalisedAbsentAfter(s: string)
    requires s == "magnesium concentration"
    ensures Sub(LitPattern("Potassium concentration", true), Fixed("Magnesium concentration"), s, 0) == s
  {
    var y := "Potassium concentration";
    assert Fold(y, true)[0] != Fold(s[0..][..23], true)[0];
    assert !LitPrefix(y, s[0..], true);
    ScanNoStartBefore(y, true, s, Fixed("Magnesium concentration"), 1);
  }

  /** The capitalised pair first, as the script has it: the capitalised replacement. */
  lemma MainPyCapitalisedPairFirst(s: string)
    requires s == "potassium concentration"
    ensures ApplyAll([MainPyRules()[2], MainPyRules()[3]], s) == "Magnesium concentration"
  {
    MainPyStepsAsWritten(s);
    ApplyAllTwo([MainPyRules()[2], MainPyRules()[3]], s,
                "Magnesium concentration", "Magnesium concentration");
  }

  /** The lowercase pair first: the lowercase replacement. */
  lemma MainPyLowercasePairFirst(s: string)
    requires s == "potassium concentration"
    ensures ApplyAll([MainPyRules()[3], MainPyRules()[2]], s) == "magnesium concentration"
  {
    MainPyRulesSpelledOut(true);
    LowercaseFoldsItself(s);
    CapitalisedAbsentAfter("magnesium concentration");
    ApplyAllTwo([MainPyRules()[3], MainPyRules()[2]], s,
                "magnesium concentration", "magnesium concentration");
  }

  /** So under IGNORECASE the order of the last two pairs decides the outcome. */
  lemma MainPyOrderMatters(s: string)
    requires s == "potassium concentration"
    ensures ApplyAll([MainPyRules()[2], MainPyRules()[3]], s)
         != ApplyAll([MainPyRules()[3], MainPyRules()[2]], s)
  {
    MainPyCapitalisedPairFirst(s);
    MainPyLowercasePairFirst(s);
    assert "Magnesium concentration"[0] != "magnesium concentration"[0];
  }

  /** As written, `update_pipeline_config` renames the primary region before it rewrites
      the region's definition, so a potassium configuration keeps the potassium values
      (`K_I`, 765.0 to 771.0 nm) under the name `magnesium_region`. */
  lemma PrimaryRegionKeepsPotassiumValues(s: string)
    requires s == PrimaryRegion.PotassiumRegionBlock
    ensures ApplyAll(PrimaryRegionRules()[..2], s) == PrimaryRegion.RenamedRegion
  {
    PrimaryRegion.CommentRuleRenamesRegion(s);
    PrimaryRegion.RegionRuleMissesRenamedRegion(PrimaryRegion.RenamedRegion);
    ApplyAllTwo(PrimaryRegionRules()[..2], s, PrimaryRegion.RenamedRegion,
                PrimaryRegion.RenamedRegion);
  }

  /** With that rule the potassium primary region becomes the magnesium one: the magnesium
      comment, name and values. */
  lemma CorrectedPrimaryRegionIsMagnesium(s: string)
    requires s == PrimaryRegion.PotassiumRegionBlock
    ensures ApplyAll(CorrectedPrimaryRegionRules()[..2], s)
         == PrimaryRegion.MagnesiumComment + PrimaryRegion.MagnesiumRegionDefinition
  {
    PrimaryRegion.CommentRuleRenamesRegion(s);
    PrimaryRegion.MagnesiumRegionRuleRewritesRenamed(PrimaryRegion.RenamedRegion);
    ApplyAllTwo(CorrectedPrimaryRegionRules()[..2], s, PrimaryRegion.RenamedRegion,
                PrimaryRegion.MagnesiumComment + PrimaryRegion.MagnesiumRegionDefinition);
  }
}
