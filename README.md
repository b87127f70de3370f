# Magnesium migration: a Dafny model of the rewrite engine

`migrate_to_magnesium.py` turns a potassium prediction pipeline into a magnesium one by
editing five kinds of file in place. Each `update_*` function reads one file into a
string, pushes it through a fixed chain of rewrites (`str.replace`, and `re.sub` with
literal text, `\s+`, lazy `.*?`, `re.DOTALL`, `re.IGNORECASE` and `count=`), and writes
it back. `update_feature_files` does this for a list of five feature files and skips the
ones that do not exist. `main` runs the updates in a fixed order.

The model has seven modules, one per layer of the script:

- `Literal` (literal.dfy): Python's `str.replace(old, new[, count])`. It scans left to
  right, replaces the leftmost non-overlapping occurrences and copies the text between
  them. Lemmas cover the length change, absence as a no-op, the identity rule, when
  the result is unchanged, and what `count` keeps.
- `Regex` (regex.dfy): `re.sub` and `re.search` over the fragment of the regular
  expression language the script uses:
  - literal text;
  - `\s+`, greedy and backing off;
  - `.*?`, lazy, taking a newline only under DOTALL;
  - ASCII IGNORECASE.

  The matcher follows the backtracking order of Python's engine for this fragment. The
  scan of `re.sub` is a total function: it also defines what an empty match does.
- `Engine` (engine.dfy): a rewrite step is a `Rule`: a string replacement, a
  substitution, or the guarded insertion `if marker not in content: re.sub(...)`.
  - `ApplyAll` folds the rules over the content in declared order.
  - `RunRules` is the `for pattern, replacement in replacements` loop, proved equal to
    that fold.
  - Lemmas cover composition, absence, deletion and the guarded insertion.
- `Migration` (migration.dfy): the script's own rule lists, transcribed text for text
  (escapes removed), with lemmas about individual rules. These include the `K_I_help`
  insertion, the two `count=2` defaults, the deletions, the identity rule, the
  `.*?` description and summary rules, and the `update_main_py` list (see Findings).
- `PrimaryRegion` (region.dfy): the two rules of lines 41-61 that rewrite the primary
  peak region: the comment block above it with the region's name, then the region's
  definition. It also holds a potassium primary region as a witness text and the lemmas
  that run both rules on it (see Findings).
- `FeatureMethod` (feature_method.dfy): the two rules of lines 159-168 that rewrite the
  settings of the feature-generation method: the heading with the flag's name, then
  the flag's whole line. It also holds the potassium settings as a witness text and the
  lemmas that run both rules on it (see Findings).
- `Driver` (driver.dfy): the files are a map from relative path to content.
  - `UpdateFile` is one `update_*` function.
  - `UpdateFeatureFiles` is the skip-missing loop.
  - `Migrate` is `main`.
  - `Migrate` is generic in a `Plan`, which holds the rule lists and the feature-file
    list.
  - `Driver.Script` is the plan the script itself runs: its own lists as written, the
    `main.py` pairs under IGNORECASE included.
  - `Driver.CorrectedScript` is the same plan with the lists of the three findings
    below put right.

## Model

| member | source | states |
|---|---|---|
| Literal.ReplaceAll | migrate_to_magnesium.py:19-28 | definition of `str.replace(old, new)`; its meaning is stated by `Literal.ReplaceAllLength`, `Literal.OccurrencesZeroIff` and `Literal.UnchangedIff` |
| Literal.ReplaceFirst | migrate_to_magnesium.py:230-243 | definition of `str.replace(old, new, count)`; its meaning is stated by `Literal.CutOccurrences`, `Literal.ReplaceFirstSplit` and `Literal.EnoughCountIsAll` |
| Literal.Contains | migrate_to_magnesium.py:108 | definition of Python's `pat in s`; `Regex.LiteralSearch` ties it to `re.search` |
| Literal.Cut | migrate_to_magnesium.py:230-243 | where a `count`-limited scan stops lies within the text |
| Literal.ReplaceAllLength | migrate_to_magnesium.py:19-28 | every replaced occurrence changes the length by `len(new) - len(old)`, and nothing else changes it |
| Literal.OccurrencesZeroIff | migrate_to_magnesium.py:19-28 | the scan replaces nothing exactly when `old not in s` |
| Literal.AbsentUnchanged | migrate_to_magnesium.py:19-28 | with `old` absent, `replace` returns its input, with or without a count; absence is not an error |
| Literal.SelfReplaceIdentity | migrate_to_magnesium.py:363-367 | replacing a text by itself is the identity on every input |
| Literal.UnchangedIff | migrate_to_magnesium.py:19-28 | `s.replace(old, new) == s` holds exactly when `old` is absent or `new == old` (both directions) |
| Literal.ChangedAtOccurrence | migrate_to_magnesium.py:19-28 | where `old` starts the text and `new != old`, `replace` returns a different text |
| Literal.CutOccurrences | migrate_to_magnesium.py:230-243 | before the stopping point lie exactly `min(count, occurrences)` occurrences |
| Literal.ReplaceFirstSplit | migrate_to_magnesium.py:230-243 | a `count`-limited replace is the full replace of the text before the stopping point, followed by the rest of the input unchanged |
| Literal.EnoughCountIsAll | migrate_to_magnesium.py:230-243 | a count at least the number of occurrences is the same as no count |
| Regex.MatchFrom | migrate_to_magnesium.py:42 | definition of the backtracking match from one atom on; a match stays within the text and takes at least a literal's length or one whitespace character. Its meaning is stated by `Regex.LiteralMatch`, `Regex.SpaceRun`, `Regex.ExtendToFirst` and `Regex.LazyBetween` |
| Regex.BackOff | migrate_to_magnesium.py:58 | definition of `\s+` giving back characters one at a time; a match it reports takes at least one character. `Regex.BackOffSome` states what that match is made of |
| Regex.Extend | migrate_to_magnesium.py:42 | definition of `.*?` taking one more character at a time; a match it reports ends within the text. `Regex.ExtendToFirst` and `Regex.ExtendIsFirstEnd` state where it stops |
| Regex.Scan | migrate_to_magnesium.py:31-38 | definition of the left-to-right scan of `re.sub`; its meaning is stated by `Regex.ScanAtSearch` and `Regex.ScanNoMatch` |
| Regex.Sub | migrate_to_magnesium.py:31-38 | definition of `re.sub(pattern, repl, s, count)`, where `count=0` means no limit; `Regex.NoMatchUnchanged` and `Regex.LiteralSubIsReplace` state its meaning |
| Regex.BackOffSome | migrate_to_magnesium.py:58 | a match `\s+` reports after backing off is some part of the run it took, at least one character long, followed by a match of the rest of the pattern |
| Regex.SpacedPairParts | migrate_to_magnesium.py:58 | a match of `a\s+b` is `a`, at least one whitespace character, then `b` |
| Regex.SpacedPairPinned | migrate_to_magnesium.py:58 | when the text after the whitespace holds a character found nowhere before it, a match of `a\s+b` must end its `a` exactly where the text's own head ends |
| Regex.SpacedPairWhole | migrate_to_magnesium.py:58 | `a`, a whitespace run and `b` is a match of `a\s+b` that takes all of it |
| Regex.MatchAtLeast | migrate_to_magnesium.py:31-38 | every match takes at least the pattern's literal text plus one character per `\s+` |
| Regex.ScanTooShort | migrate_to_magnesium.py:31-38 | text shorter than that minimum is left unchanged by `re.sub` |
| Regex.SubTail | migrate_to_magnesium.py:31-38 | when the only match is the whole tail of the text, `re.sub` keeps the text before it and replaces the tail |
| Regex.IsSpace | migrate_to_magnesium.py:58 | definition of the `\s` class of a `str` pattern, the characters of Python's `str.isspace`; `Regex.SpaceRun` and `Regex.SpacedPairParts` state what `\s+` takes with it |
| Regex.Fold | migrate_to_magnesium.py:318 | IGNORECASE folding keeps the length of the text |
| Regex.FoldFirstCase | migrate_to_magnesium.py:318 | under IGNORECASE, texts that differ only in the case of their first letter match each other |
| Regex.SpaceRun | migrate_to_magnesium.py:102 | greedy `\s+` takes the longest run of whitespace: every taken character is whitespace, and the next is not |
| Regex.MatchAt | migrate_to_magnesium.py:42 | a match never runs past the end of the text, and one that starts with literal text or `\s+` takes at least one character |
| Regex.Search | migrate_to_magnesium.py:111 | a reported match lies within the text |
| Regex.SearchLeftmost | migrate_to_magnesium.py:110-114 | `re.search` reports a real match, no earlier position has one, and it reports none only when no position matches |
| Regex.ExtendToFirst | migrate_to_magnesium.py:111 | lazy `.*?` before literal text stops at the first place that text starts, and without DOTALL crosses no newline |
| Regex.ExtendIsFirstEnd | migrate_to_magnesium.py:111 | lazy `.*?` before literal text ends where a plain left-to-right reading for the first occurrence of that text ends |
| Regex.FirstEndIsFirst | migrate_to_magnesium.py:111 | that reading ends just after an occurrence of the text, passes no earlier occurrence, and without DOTALL passes no newline |
| Regex.LazyBetween | migrate_to_magnesium.py:385 | a match of `a.*?b` starts with `a`, ends with the first `b` after it, and without DOTALL stays on one line |
| Regex.ScanAtSearch | migrate_to_magnesium.py:31-35 | `re.sub` copies the text before the leftmost match, replaces the match and goes on after it |
| Regex.ScanNoMatch | migrate_to_magnesium.py:36-38 | when the pattern matches nowhere, the scan returns its input |
| Regex.NoMatchUnchanged | migrate_to_magnesium.py:36-38 | `re.sub` with a pattern that matches nowhere returns its input for every count; no error is raised |
| Regex.DeletionShrinks | migrate_to_magnesium.py:101-105 | a deletion never lengthens the text, and shortens it exactly when a replacement is allowed and the pattern matches |
| Regex.LiteralMatch | migrate_to_magnesium.py:36 | a plain-text pattern matches exactly where its text starts the input |
| Regex.LiteralMatchAt | migrate_to_magnesium.py:318 | the same under either case setting, with case-folded comparison |
| Regex.ScanShort | migrate_to_magnesium.py:311-318 | text shorter than a plain-text pattern is left unchanged |
| Regex.ScanNoStartBefore | migrate_to_magnesium.py:311-318 | when a plain-text pattern starts at none of the positions where it still fits, `re.sub` returns its input |
| Regex.ScanWhole | migrate_to_magnesium.py:313-318 | a plain-text pattern that matches the whole text, under either case setting, replaces the whole text |
| Regex.LiteralSubIsReplace | migrate_to_magnesium.py:230-235 | `re.sub` with a plain-text pattern is `str.replace`, with no count and with a count |
| Regex.LiteralSearch | migrate_to_magnesium.py:108 | `re.search` finds a plain-text pattern exactly when Python's `in` does |
| Engine.Apply | migrate_to_magnesium.py:17-243 | definition of one rewrite step: `str.replace`, `re.sub`, or the guarded insertion; `Engine.StrReplaceAbsent`, `Engine.ReSubNoMatch` and `Engine.GuardedInsertionSkips` state its no-op cases |
| Engine.ApplyAll | migrate_to_magnesium.py:17-243 | definition of the chain of rewrites in declared order; `Engine.ApplyAllAppend` and `Engine.RunRules` state its meaning |
| Engine.RunRules | migrate_to_magnesium.py:295-296 | the loop over `(pattern, replacement)` pairs computes the fold of the single-rule rewrite over the list in order |
| Engine.PlainRulesAreReplaces | migrate_to_magnesium.py:295-296 | case-sensitive `re.sub` over plain-text pairs is `str.replace` over the same pairs in the same order |
| Engine.ApplyAllAppend | migrate_to_magnesium.py:17-243 | running one rule list after another is running their concatenation; each step sees only its predecessor's output |
| Engine.StrReplaceAbsent | migrate_to_magnesium.py:19-28 | a string replacement whose text is absent changes nothing |
| Engine.ReSubNoMatch | migrate_to_magnesium.py:31-35 | a substitution whose pattern matches nowhere changes nothing |
| Engine.LiteralSubUnchangedIff | migrate_to_magnesium.py:363-367 | a plain-text substitution leaves the content unchanged exactly when its text is absent or its replacement equals it |
| Engine.LimitedSubKeepsRest | migrate_to_magnesium.py:230-243 | with `count=n`, at most `n` occurrences are replaced and everything after the last replaced one is the input unchanged |
| Engine.DeletionNeverGrows | migrate_to_magnesium.py:101-105 | a deletion rule never lengthens the content, and shortens it exactly when its pattern occurs |
| Engine.InsertionAtSearch | migrate_to_magnesium.py:110-114 | with the marker absent, the insertion copies the text before the first anchor match, re-emits the match followed by the inserted text, and scans on after it |
| Engine.InsertAfterFirstAnchor | migrate_to_magnesium.py:110-114 | with the marker absent, the text up to the end of the first anchor match is kept and the new text follows it |
| Engine.GuardedInsertionSkips | migrate_to_magnesium.py:107-114 | the guarded insertion changes nothing when the marker is present, and changes nothing when the anchor matches nowhere |
| Engine.GuardedInsertionAdds | migrate_to_magnesium.py:107-114 | when it inserts, the re-emitted anchor text is still there, and the marker is there if the new text carries it |
| Engine.GuardedInsertionIdempotent | migrate_to_magnesium.py:107-114 | when the inserted text carries the marker, a second run of the guarded insertion changes nothing |
| Migration.PipelineConfigRules | migrate_to_magnesium.py:17-243 | definition: the rewrites of `update_pipeline_config`, in order |
| Migration.FeatureRules | migrate_to_magnesium.py:262-282 | definition: the feature-file pairs; `Migration.FeatureRulesAreReplaces` states its meaning |
| Migration.MainPyRules | migrate_to_magnesium.py:310-318 | definition: the `main.py` pairs under IGNORECASE; `Migration.MainPyCapitalisesLowercase` states what they do to the lowercase spelling |
| Migration.ClaudeMdRules | migrate_to_magnesium.py:331-367 | definition: the `CLAUDE.md` rewrites; `Migration.StrategyMatchEndsAtFirstParen` and `Migration.MagnesiumLossRuleIsIdentity` state what two of them do |
| Migration.PyprojectRules | migrate_to_magnesium.py:382-389 | definition: the `pyproject.toml` pairs; `Migration.DescriptionMatchIsOneValue` states what the description rule replaces |
| Migration.KIHelpInsertion | migrate_to_magnesium.py:107-114 | definition: the guarded `K_I_help` insertion; `Migration.KIHelpInsertionPlaces` and `Migration.KIHelpInsertionIdempotent` state its meaning |
| Migration.MainPyRulesCaseSensitive | migrate_to_magnesium.py:310-318 | definition: the `main.py` pairs matched case-sensitively, the corrected half of the first finding; `Migration.MainPyCaseSensitiveIsReplaces` and `Migration.MainPyCaseSensitiveKeepsCase` state its meaning |
| Migration.CorrectedPipelineConfigRules | migrate_to_magnesium.py:17-243 | definition: the rewrites of `update_pipeline_config` with the definition rule of lines 57-61 keyed on `magnesium_region:` and the flag-line rule of lines 164-168 keyed on `use_focused_magnesium_features:`, the corrected halves of the second and third findings; `Migration.CorrectedPrimaryRegionIsMagnesium` and `FeatureMethod.CorrectedMethodRulesWriteMagnesium` state what those rules do |
| Migration.FeatureFiles | migrate_to_magnesium.py:254-260 | no feature file is listed twice |
| Migration.KIHelpLineHasMarker | migrate_to_magnesium.py:108-112 | the inserted `K_I_help` line contains the guard's marker |
| Migration.KIHelpInsertionSkips | migrate_to_magnesium.py:107-114 | content already naming `K_I_help`, or without an `N_I_help` region line, is left as it is |
| Migration.KIHelpInsertionPlaces | migrate_to_magnesium.py:107-114 | otherwise the content up to the end of the first `N_I_help` line is kept, the `K_I_help` line follows it, and the result names `K_I_help` |
| Migration.KIHelpInsertionIdempotent | migrate_to_magnesium.py:107-114 | running the `K_I_help` insertion twice is running it once |
| Migration.RawDataDirAtMostTwice | migrate_to_magnesium.py:230-235 | the raw-data default is rewritten in at most its first two occurrences, and the rest of the content is kept byte for byte |
| Migration.ReferenceDataPathAtMostTwice | migrate_to_magnesium.py:238-243 | the same for the reference-data default |
| Migration.RegionDeletionsOnlyRemove | migrate_to_magnesium.py:67-72 | the deletions of lines 67-72 and 101-105 never lengthen the content, and each shortens it exactly when its block occurs |
| Migration.MagnesiumLossRuleIsIdentity | migrate_to_magnesium.py:363-367 | the `MagnesiumLoss` rewrite is the identity on every input |
| Migration.FeatureRulesAreReplaces | migrate_to_magnesium.py:262-297 | the feature-file loop is `str.replace` of each pair in turn; no pattern holds a metacharacter |
| Migration.DescriptionMatchIsOneValue | migrate_to_magnesium.py:385 | a replaced description runs from `description = "` to the first quote after it, on one line |
| Migration.StrategyMatchEndsAtFirstParen | migrate_to_magnesium.py:348-353 | the replaced strategy summary runs from its heading to the first `)` after it, across lines |
| Migration.TitleAbsent | migrate_to_magnesium.py:311 | the first `main.py` pair does not occur in "potassium concentration", in either case mode |
| Migration.PredictionAbsent | migrate_to_magnesium.py:312 | the second does not occur either |
| Migration.CapitalisedMatchesLowercase | migrate_to_magnesium.py:313-318 | under IGNORECASE the capitalised third pair rewrites the lowercase text to "Magnesium concentration" |
| Migration.CapitalisedFoldsToLowercase | migrate_to_magnesium.py:313-318 | under IGNORECASE the capitalised third pair starts the lowercase text |
| Migration.CapitalisedMissesLowercase | migrate_to_magnesium.py:313 | matched case-sensitively it leaves the lowercase text alone |
| Migration.LowercaseAbsentAfter | migrate_to_magnesium.py:314-318 | the fourth pair finds nothing in what the third left behind |
| Migration.LowercaseRewritten | migrate_to_magnesium.py:314 | the fourth pair rewrites the lowercase text when it gets to see it |
| Migration.MainPyStepsAsWritten | migrate_to_magnesium.py:310-318 | step by step, as written, only the third pair fires on the lowercase text |
| Migration.MainPyCapitalisesLowercase | migrate_to_magnesium.py:310-318 | as written, `update_main_py` turns "potassium concentration" into "Magnesium concentration" |
| Migration.MainPyStepsCaseSensitive | migrate_to_magnesium.py:310-318 | step by step, case-sensitively, only the fourth pair fires on the lowercase text |
| Migration.MainPyCaseSensitiveKeepsCase | migrate_to_magnesium.py:310-318 | case-sensitively, the lowercase text becomes "magnesium concentration" |
| Migration.MainPyCaseSensitiveIsReplaces | migrate_to_magnesium.py:310-318 | on every input the case-sensitive list is `str.replace` of each pair in turn |
| Migration.LowercaseFoldsItself | migrate_to_magnesium.py:314-318 | under IGNORECASE the lowercase pair rewrites the lowercase text to "magnesium concentration" |
| Migration.CapitalisedAbsentAfter | migrate_to_magnesium.py:313-318 | the capitalised pair finds nothing in "magnesium concentration", even under IGNORECASE |
| Migration.MainPyCapitalisedPairFirst | migrate_to_magnesium.py:313-318 | with the capitalised pair first, as written, the lowercase text becomes "Magnesium concentration" |
| Migration.MainPyLowercasePairFirst | migrate_to_magnesium.py:313-318 | with the two pairs the other way round, it becomes "magnesium concentration" |
| Migration.MainPyOrderMatters | migrate_to_magnesium.py:313-318 | under IGNORECASE the order of the last two pairs decides the result: the two orders give different texts |
| Migration.PrimaryRegionKeepsPotassiumValues | migrate_to_magnesium.py:41-61 | as written, the rules of lines 41-54 and 57-61 turn a potassium primary region into the magnesium comment and name over the potassium values (`K_I`, 765.0 to 771.0 nm) |
| Migration.CorrectedPrimaryRegionIsMagnesium | migrate_to_magnesium.py:41-61 | with the definition rule keyed on the new name, the same region becomes the magnesium comment, name and values |
| PrimaryRegion.MagnesiumCommentRule | migrate_to_magnesium.py:41-54 | definition: the comment-block rule under DOTALL; `PrimaryRegion.CommentRuleOn` and `PrimaryRegion.CommentRuleRenamesRegion` state its meaning |
| PrimaryRegion.PotassiumRegionRule | migrate_to_magnesium.py:57-61 | definition: the definition rule keyed on `potassium_region:`; `PrimaryRegion.RegionRuleRewritesPotassiumRegion` and `PrimaryRegion.RegionRuleMissesRenamedRegion` state its meaning |
| PrimaryRegion.MagnesiumRegionRule | migrate_to_magnesium.py:57-61 | definition: the same rule keyed on `magnesium_region:`, the corrected half of the second finding; `PrimaryRegion.MagnesiumRegionRuleRewritesRenamed` states its meaning |
| PrimaryRegion.CommentPatternMatches | migrate_to_magnesium.py:42 | the comment pattern matches a comment of a first and a last line, across the whitespace between them, up to the end of the name that follows |
| PrimaryRegion.CommentPatternLength | migrate_to_magnesium.py:42 | every match of the comment pattern takes both lines, one whitespace character and the name |
| PrimaryRegion.CommentRuleOn | migrate_to_magnesium.py:41-54 | the comment rule replaces such a comment and its name and keeps the text after the name |
| PrimaryRegion.CommentRuleRenamesRegion | migrate_to_magnesium.py:41-54 | on a potassium primary region, lines 41-54 put the magnesium comment and the name `magnesium_region` in place and leave the definition's values alone |
| PrimaryRegion.MagnesiumCommentHasNoK | migrate_to_magnesium.py:44-52 | the magnesium comment holds no `K` |
| PrimaryRegion.RegionMatchStart | migrate_to_magnesium.py:57-61 | in a region's text whose prefix holds no `K`, the definition pattern can match only where its own name ends that prefix |
| PrimaryRegion.RegionRuleRewrites | migrate_to_magnesium.py:57-61 | a definition rule keyed on a name rewrites the definition that name starts and keeps everything before it |
| PrimaryRegion.RegionRuleRewritesPotassiumRegion | migrate_to_magnesium.py:57-61 | lines 57-61 rewrite a `potassium_region` definition with the potassium values to the magnesium definition |
| PrimaryRegion.RegionRuleMissesRenamedRegion | migrate_to_magnesium.py:57-61 | after lines 41-54 have renamed the region, lines 57-61 match nowhere and change nothing |
| PrimaryRegion.MagnesiumRegionRuleRewritesRenamed | migrate_to_magnesium.py:41-61 | the same rule keyed on `magnesium_region:` rewrites the renamed region to the magnesium comment and definition |
| FeatureMethod.HeadingRule | migrate_to_magnesium.py:159-163 | definition: the heading rule `# Potassium feature generation method\s+use_focused_potassium_features:`; `FeatureMethod.SpacedRuleOn` and `FeatureMethod.HeadingRuleRenames` state its meaning |
| FeatureMethod.FlagLineRule | migrate_to_magnesium.py:164-168 | definition: the flag-line rule keyed on `use_focused_potassium_features:`; `FeatureMethod.FlagLineRuleMissesRenamed` states what it does after the heading rule |
| FeatureMethod.CorrectedFlagLineRule | migrate_to_magnesium.py:164-168 | definition: the same rule keyed on `use_focused_magnesium_features:`, the corrected half of the third finding; `FeatureMethod.CorrectedFlagLineRuleRewrites` states its meaning |
| FeatureMethod.SpacedMatch | migrate_to_magnesium.py:160 | the heading pattern matches the heading, the whitespace after it and the flag's name, up to the end of the name |
| FeatureMethod.SpacedRuleOn | migrate_to_magnesium.py:159-163 | the heading rule replaces the heading, the whitespace and the name, and keeps the rest of the line when the rest cannot start a second match |
| FeatureMethod.TailRuleOn | migrate_to_magnesium.py:164-168 | a plain-text rule whose text ends the input, and whose anchor character is found nowhere before it, rewrites that text and keeps everything before it |
| FeatureMethod.HeadingRuleRenames | migrate_to_magnesium.py:159-163 | on the potassium settings, lines 159-163 write the magnesium heading and flag name and keep the old comment about the original features |
| FeatureMethod.FlagLineRuleMissesRenamed | migrate_to_magnesium.py:164-168 | after lines 159-163 have renamed the flag, lines 164-168 match nowhere and change nothing |
| FeatureMethod.CorrectedFlagLineRuleRewrites | migrate_to_magnesium.py:164-168 | the rule keyed on the new name gives the renamed flag the comment about the high-magnesium features |
| FeatureMethod.MethodRulesKeepOriginalComment | migrate_to_magnesium.py:159-168 | as written, lines 159-168 turn the potassium settings into the magnesium heading and name over the old comment, which is not the text they are written to produce |
| FeatureMethod.CorrectedMethodRulesWriteMagnesium | migrate_to_magnesium.py:159-168 | with the flag-line rule keyed on the new name, the same settings get the magnesium heading, name and high-magnesium comment |
| Driver.UpdateFile | migrate_to_magnesium.py:303-323 | a missing file raises `FileNotFound` for that path. An existing file is rewritten by its rules in order. No other file changes and no file is created |
| Driver.UpdateFeatureFiles | migrate_to_magnesium.py:284-301 | the loop computes the left-to-right sweep and logs each path as updated exactly when it exists, otherwise as skipped |
| Driver.SweepKeys | migrate_to_magnesium.py:284-301 | the sweep neither creates nor deletes a file; a missing path stays missing |
| Driver.SweepRewritesListed | migrate_to_magnesium.py:284-301 | with distinct paths, every present listed file is rewritten exactly once by the same list, and unlisted files are unchanged |
| Driver.SweepContents | migrate_to_magnesium.py:284-301 | with distinct paths, the sweep keeps the set of files, rewrites every present listed file once and leaves every other file as it was |
| Driver.Sweep | migrate_to_magnesium.py:284-301 | definition of the left-to-right visit of the feature files; `Driver.SweepKeys`, `Driver.SweepRewritesListed` and `Driver.SweepContents` state its meaning |
| Driver.FirstMissing | migrate_to_magnesium.py:396-417 | definition of the first required file, in open order, that does not exist; `Driver.Migrate` states what happens then |
| Driver.Script | migrate_to_magnesium.py:402-417 | definition: the plan `main` runs, the script's feature-file list and rule lists as written; `Driver.FeatureFilesValid` shows its feature files are valid and `Driver.Migrate` states what running it does |
| Driver.CorrectedScript | migrate_to_magnesium.py:402-417 | definition: the same plan with the corrected lists of the three findings; `Migration.MainPyCaseSensitiveKeepsCase`, `Migration.CorrectedPrimaryRegionIsMagnesium` and `FeatureMethod.CorrectedMethodRulesWriteMagnesium` state what the corrections change |
| Driver.FeatureFilesValid | migrate_to_magnesium.py:254-260 | the script's feature files are distinct and are none of the other four targets |
| Driver.Migrate | migrate_to_magnesium.py:396-417 | see below |

`Driver.Migrate`'s contract says three things:

- `main` runs the five updates in order and stops with the first missing required file
  in open order.
- Each target is rewritten exactly when the run reached its update, and is otherwise
  left as it was.
- No file is created or deleted, and files outside the plan are unchanged.

## Left out

- File I/O, `print`, `Path.exists` and `Path(__file__).parent`: the file system is a map
  from relative path to content. Reading and writing are map lookup and update, and the
  status lines become the log of `Driver.UpdateFeatureFiles`.
- Newline translation: `open(..., 'r')` in text mode reads `\r\n` as `\n`, so a target
  with CRLF line endings is written back with LF endings even where no rule matched. The
  model's content is the text after that translation.
- Path joining: a path is its relative string. Two different strings never name the
  same file.
- Text encoding: a file's content is its sequence of characters.
- The regular expression engine outside the fragment the script uses (literal text,
  `\s+`, `.*?`, DOTALL, IGNORECASE).
- Capturing groups: the only template with a back-reference, `\1\n` followed by text on
  line 112, is modelled as "the whole match, then the text". Group 1 plus the newline is
  exactly the whole match of that pattern.
- IGNORECASE folds ASCII letters only. Python's Unicode matching also folds four
  non-ASCII letters onto ASCII ones: U+0130 LATIN CAPITAL LETTER I WITH DOT ABOVE and
  U+0131 LATIN SMALL LETTER DOTLESS I match `i`, U+017F LATIN SMALL LETTER LONG S matches
  `s`, and U+212A KELVIN SIGN matches `k`. Every IGNORECASE pattern of the script holds
  an `i`, so content with U+0130 or U+0131 where the pattern has `i` is matched by the
  script and not by the model. Every IGNORECASE pattern of the script is ASCII; the
  widened magnesium-line patterns of lines 83, 89 and 95 hold U+2192 `→`, which is
  matched as itself.
- Regex.Scan: after an empty match, Python's `re.sub` may still take a non-empty match
  at the same position. The model moves on one character instead. Only patterns that
  can match both empty and non-empty text tell the two apart, and no pattern of the
  script can.
- Long literals are written as concatenations of shorter pieces. The text is the
  same; the split only affects proof cost.
- Driver.Migrate is proved for every `Plan` whose feature files are valid.
  `Driver.FeatureFilesValid` shows that the script's list is valid. No lemma
  instantiates `Migrate` at `Driver.Script()` itself, because of the size of its
  literals.
- Driver.CorrectedScript matches the `main.py` pairs case-sensitively. Each of the two
  spellings then gets its own replacement, but other case variants such as "POTASSIUM
  CONCENTRATION", which the script as written does rewrite, are left alone.
- The interaction of the rules of lines 41-54 and 57-61 (see Findings) is proved on one
  witness text, `PrimaryRegion.PotassiumRegionBlock`: the first and last lines of the
  potassium comment, then the potassium definition. A real configuration has more
  comment lines between them, which the rule's `.*?` passes over; the model does not
  state that for every such text.
- The interaction of the rules of lines 159-168 (see Findings) is likewise proved on one
  witness text, `FeatureMethod.PotassiumMethodBlock`: the heading, one newline and
  indentation, and the potassium flag's line.
- Whole-pipeline idempotence is not claimed. Only the guarded insertion is proved
  idempotent.
- There is no "anchor not found" error: every `replace` and `re.sub` of the script is
  silently a no-op when nothing matches, and the model has none either.
- A missing required file raises from `open` and ends `main`. Updates made before it
  have already been written, and the model keeps them in the result.

## Findings

| source | as written | input that shows it | evidently intended | confidence | as-written member | corrected member |
|---|---|---|---|---|---|---|
| migrate_to_magnesium.py:310-318 | every `main.py` pair runs under `re.IGNORECASE`, so the capitalised pair of line 313 also rewrites the lowercase spelling, to "Magnesium concentration"; the lowercase pair of line 314 then never fires | a `main.py` holding "potassium concentration" | each spelling gets its own replacement ("potassium concentration" becomes "magnesium concentration"), which is why line 314 exists; the corrected case-sensitive list no longer rewrites other case variants | medium, not executed | Migration.MainPyCapitalisesLowercase | Migration.MainPyCaseSensitiveKeepsCase |
| migrate_to_magnesium.py:41-61 | the rule of lines 41-54 replaces the comment block together with the name `potassium_region:` by the magnesium comment and `magnesium_region:`; the rule of lines 57-61 then looks for `potassium_region: PeakRegion = PeakRegion(`, which is no longer there | a `pipeline_config.py` whose primary region is the potassium comment followed by `potassium_region: PeakRegion = PeakRegion(` and the `K_I` values | the primary region becomes the magnesium region with the `Mg_I` values (516.0 to 519.0 nm); as written it keeps the `K_I` values (765.0 to 771.0 nm) under the name `magnesium_region` | medium, not executed | Migration.PrimaryRegionKeepsPotassiumValues | Migration.CorrectedPrimaryRegionIsMagnesium |
| migrate_to_magnesium.py:159-168 | the rule of lines 159-163 replaces the heading together with the name `use_focused_potassium_features:` by the magnesium heading and `use_focused_magnesium_features:`; the rule of lines 164-168 then looks for `use_focused_potassium_features: bool = True`, which is no longer there | a `pipeline_config.py` holding the heading `# Potassium feature generation method` followed by the line `use_focused_potassium_features: bool = True  # If True, uses focused features; if False, uses original features` | the flag's comment ends "uses original high-magnesium features", as line 166 writes it; as written it keeps "uses original features" | medium, not executed | FeatureMethod.MethodRulesKeepOriginalComment | FeatureMethod.CorrectedMethodRulesWriteMagnesium |
