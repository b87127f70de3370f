/** The feature-generation method of `update_pipeline_config` (lines 158-168): the rule
    that rewrites the method's heading together with the flag name under it, the rule
    that rewrites the flag's line, and how the two meet in a potassium configuration. */
module FeatureMethod {
  import Literal
  import opened Regex
  import opened Engine

  /** The heading of the method's settings, before and after (lines 160-161). */
  const PotassiumMethodHeading := "# Potassium feature generation " + "method"
  const MagnesiumMethodHeading := "# Magnesium feature generation " + "method"

  /** The newline and indentation between the heading and the flag. */
  const MethodGap := "\n    "

  /** The flag's name, with the colon that ends it. */
  const PotassiumFlag := "use_focused_potassium_features:"
  const MagnesiumFlag := "use_focused_magnesium_features:"

  /** The rest of the flag's line: its type, default and comment (lines 165-166). */
  const FlagSetting := " bool = True  # If True, uses " + "focused features;"
  const OriginalFeatures := " if False, uses original feature" + "s"
  const HighMagnesiumFeatures := " if False, uses original high-ma" + "gnesium features"
  const FlagLine := FlagSetting + OriginalFeatures

  /** Lines 159-163: the heading, whitespace and the potassium flag's name become the
      magnesium heading, one newline and indentation, and the magnesium flag's name. */
  function HeadingRule(): Rule {
    ReSub(
      Pattern([Lit(PotassiumMethodHeading), Spaces, Lit(PotassiumFlag)], false, false),
      MagnesiumMethodHeading + MethodGap + MagnesiumFlag,
      0)
  }

  /** Lines 164-168: the potassium flag's whole line becomes the magnesium flag's line,
      whose comment names the high-magnesium features. */
  function FlagLineRule(): Rule {
    ReSub(LitPattern(PotassiumFlag + FlagLine, false),
          MagnesiumFlag + (FlagSetting + HighMagnesiumFeatures), 0)
  }

  /** The same rule keyed on the flag's new name. */
  function CorrectedFlagLineRule(): Rule {
    ReSub(LitPattern(MagnesiumFlag + FlagLine, false),
          MagnesiumFlag + (FlagSetting + HighMagnesiumFeatures), 0)
  }

  /** Lines 159-168, in the order they run. */
  function MethodRules(): seq<Rule> {
    [HeadingRule(), FlagLineRule()]
  }

  /** The same with the flag's line keyed on its new name. */
  function CorrectedMethodRules(): seq<Rule> {
    [HeadingRule(), CorrectedFlagLineRule()]
  }

  /** A potassium configuration's method settings: the heading and the flag's line. */
  const PotassiumMethodBlock := PotassiumMethodHeading + MethodGap + (PotassiumFlag + FlagLine)

  /** The same settings after lines 159-163: magnesium heading and name, the old comment. */
  const RenamedMethodBlock := MagnesiumMethodHeading + MethodGap + (MagnesiumFlag + FlagLine)

  /** The settings lines 159-168 are written to produce. */
  const MagnesiumMethodBlock :=
    MagnesiumMethodHeading + MethodGap + (MagnesiumFlag + (FlagSetting + HighMagnesiumFeatures))

  lemma GapIsSpace()
    ensures MethodGap != [] && forall i :: 0 <= i < |MethodGap| ==> IsSpace(MethodGap[i])
  {
  }

  /** The flag's line names no potassium: no `P`, no `p`. */
  lemma FlagSettingHasNoP()
    ensures 'P' !in FlagSetting && 'p' !in FlagSetting
  {
  }

  lemma OriginalFeaturesHasNoP()
    ensures 'P' !in OriginalFeatures && 'p' !in OriginalFeatures
  {
  }

  lemma FlagLineHasNoP()
    ensures 'P' !in FlagLine && 'p' !in FlagLine
  {
    FlagSettingHasNoP();
    OriginalFeaturesHasNoP();
  }

  /** Nor do the magnesium heading and flag name. */
  lemma MagnesiumNamesHaveNoP()
    ensures 'p' !in MagnesiumMethodHeading && 'p' !in MethodGap && 'p' !in MagnesiumFlag
  {
  }

  /** The heading has no `_`, and the flag's name has its first `_` at index 3. */
  lemma FlagNameAnchor()
    ensures '_' !in MagnesiumMethodHeading + MethodGap
    ensures |MagnesiumFlag| > 3 && MagnesiumFlag[3] == '_'
    ensures forall i :: 0 <= i < 3 ==> MagnesiumFlag[i] != '_'
  {
  }

  /** The pattern `h\s+f` matches the heading `h`, whitespace `g` and the name `f`. */
  lemma SpacedMatch(h: string, g: string, f: string, rest: string)
    requires g != [] && forall i :: 0 <= i < |g| ==> IsSpace(g[i])
    requires f != [] && !IsSpace(f[0])
    ensures MatchAt(Pattern([Lit(h), Spaces, Lit(f)], false, false), h + g + (f + rest))
         == Some(|h| + |g| + |f|)
  {
    assert h + g + (f + rest) == h + (g + (f + rest));
    LitSpacesLit(Pattern([Lit(h), Spaces, Lit(f)], false, false), 0, h, g, f, rest);
  }

  /** So a rule `h\s+f` replaces all three and keeps the `rest` when `rest` lacks a
      character of `h`. */
  lemma SpacedRuleOn(h: string, g: string, f: string, rest: string, a: string, c: string,
                     q: nat)
    requires g != [] && forall i :: 0 <= i < |g| ==> IsSpace(g[i])
    requires f != [] && !IsSpace(f[0])
    requires q < |h| && h[q] !in rest
    ensures Sub(Pattern([Lit(h), Spaces, Lit(f)], false, false), Fixed(a + c),
                h + g + (f + rest), 0)
         == a + (c + rest)
  {
    var r := a + c;
    var p := Pattern([Lit(h), Spaces, Lit(f)], false, false);
    var s := h + g + (f + rest);
    SpacedMatch(h, g, f, rest);
    ScanHit(p, s, Fixed(r), All);
    assert s[|h| + |g| + |f|..] == rest;
    MissingCharNoMatch(p, h, q, rest);
    ScanNoMatch(p, rest, Fixed(r), All);
    assert r + rest == a + (c + rest);
  }

  /** A plain-text rule keyed on `v == f + w`, on a text that ends with `v`, rewrites that
      `v` and keeps what comes before it, when the character of `f` at `q` occurs neither
      in the text before nor earlier in `f`. */
  lemma TailRuleOn(b: string, f: string, w: string, y: string, q: nat)
    requires q < |f| && f[q] !in b && forall i :: 0 <= i < q ==> f[i] != f[q]
    ensures Sub(LitPattern(f + w, false), Fixed(y), b + (f + w), 0) == b + y
  {
    var v := f + w;
    var p := LitPattern(v, false);
    assert v[q] == f[q];
    assert forall i :: 0 <= i < q ==> v[i] == f[i];
    LiteralMatch(v, v);
    forall j | 0 <= j < |b|
      ensures MatchAt(p, (b + v)[j..]).None?
    {
      LiteralMatch(v, (b + v)[j..]);
      if v <= (b + v)[j..] {
        Literal.UniqueAnchor(b, v, q, j);
      }
    }
    SubTail(p, y, b, v);
  }

  /** Lines 159-163 rename the heading and the flag and keep the flag's old comment. */
  lemma HeadingRuleRenames(s: string)
    requires s == PotassiumMethodBlock
    ensures Apply(HeadingRule(), s) == RenamedMethodBlock
  {
    GapIsSpace();
    FlagLineHasNoP();
    assert PotassiumMethodHeading[2] == 'P';
    SpacedRuleOn(PotassiumMethodHeading, MethodGap, PotassiumFlag, FlagLine,
                 MagnesiumMethodHeading + MethodGap, MagnesiumFlag, 2);
  }

  /** After that, lines 164-168, keyed on the potassium flag's name, match nowhere. */
  lemma FlagLineRuleMissesRenamed(s: string)
    requires s == RenamedMethodBlock
    ensures Apply(FlagLineRule(), s) == s
  {
    var x := PotassiumFlag + FlagLine;
    FlagLineHasNoP();
    MagnesiumNamesHaveNoP();
    assert x[12] == 'p';
    MissingCharNoMatch(LitPattern(x, false), x, 12, s);
    NoMatchUnchanged(LitPattern(x, false), Fixed(MagnesiumFlag + (FlagSetting + HighMagnesiumFeatures)), s, 0);
  }

  /** The rule keyed on the new name gives the flag its high-magnesium comment. */
  lemma CorrectedFlagLineRuleRewrites(s: string)
    requires s == RenamedMethodBlock
    ensures Apply(CorrectedFlagLineRule(), s) == MagnesiumMethodBlock
  {
    FlagNameAnchor();
    TailRuleOn(MagnesiumMethodHeading + MethodGap, MagnesiumFlag, FlagLine,
               MagnesiumFlag + (FlagSetting + HighMagnesiumFeatures), 3);
  }

  /** As written, lines 159-168 rename the flag before they rewrite its line, so the flag
      keeps the comment about the original features, not the high-magnesium ones. */
  lemma MethodRulesKeepOriginalComment(s: string)
    requires s == PotassiumMethodBlock
    ensures ApplyAll(MethodRules(), s) == RenamedMethodBlock
    ensures ApplyAll(MethodRules(), s) != MagnesiumMethodBlock
  {
    HeadingRuleRenames(s);
    FlagLineRuleMissesRenamed(RenamedMethodBlock);
    ApplyAllTwo(MethodRules(), s, RenamedMethodBlock, RenamedMethodBlock);
    assert |OriginalFeatures| != |HighMagnesiumFeatures|;
  }

  /** With the corrected rule the flag gets the high-magnesium comment. */
  lemma CorrectedMethodRulesWriteMagnesium(s: string)
    requires s == PotassiumMethodBlock
    ensures ApplyAll(CorrectedMethodRules(), s) == MagnesiumMethodBlock
  {
    HeadingRuleRenames(s);
    CorrectedFlagLineRuleRewrites(RenamedMethodBlock);
    ApplyAllTwo(CorrectedMethodRules(), s, RenamedMethodBlock, MagnesiumMethodBlock);
  }
}
