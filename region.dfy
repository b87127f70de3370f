/** The primary region of `update_pipeline_config` (lines 41-61): the rule that rewrites
    the comment above the region and renames the region, the rule that rewrites the
    region's definition, and how the two meet in a potassium configuration. */
module PrimaryRegion {
  import Literal
  import opened Regex
  import opened Engine

  /** The first and last lines of the potassium comment above the primary region. */
  const PotassiumCommentHead := "# Literature-verified Potassium " +
                                "LIBS spectral lines:"
  const PotassiumCommentLast := "# Updated for potassium: K " +
                                "I doublet at 766.49, 769.90 " + "nm (strongest lines)"

  /** The lines of the magnesium comment that replaces it (lines 44-51). */
  const MagnesiumHeading := "# Literature-verified Magnesium " + "LIBS spectral lines:"
  const MagnesiumSources := "# According to NIST and LIBS " + "literature:"
  const MagnesiumResonanceLine := "# - 285.2 nm: Most prominent " +
                                  "Mg I line (resonance line)"
  const MagnesiumStrongLine := "# - 383.8 nm: Strong Mg I line"
  const MagnesiumTripletLine := "# - 516.7-518.4 nm: Mg I triplet" +
                                " (516.7, 517.3, 518.4 nm)"
  const MagnesiumIonicLine := "# - 279.5-280.3 nm: Mg II " +
                              "ionic lines (279.55, 279.80, " + "280.27 nm)"
  const MagnesiumRegionHeading := "# Primary magnesium region " +
                                  "- Mg I triplet around 517 " + "nm"

  /** The newline and indentation between the lines of the primary region, and before the
      region's values. */
  const LineGap := "\n    "
  const ValuesGap := "\n        "

  /** The magnesium comment as lines 44-52 write it, up to the region's new name. */
  const MagnesiumComment :=
    MagnesiumHeading + LineGap + MagnesiumSources + LineGap + MagnesiumResonanceLine + LineGap
    + MagnesiumStrongLine + LineGap + MagnesiumTripletLine + LineGap + MagnesiumIonicLine + "\n"
    + LineGap + MagnesiumRegionHeading + LineGap

  /** The parts of the region's definition, and the magnesium definition of lines 57-61. */
  const PeakRegionOpen := " PeakRegion = PeakRegion("
  const PotassiumRegionValues := "element=\"K_I\", lower_wavelength=" +
                                 "765.0, upper_wavelength=771.0, " +
                                 "center_wavelengths=[766.49, " + "769.90])"
  const MagnesiumRegionDefinition := "magnesium_region: PeakRegion " +
                                     "= PeakRegion(\n        element=\"M" +
                                     "g_I\", lower_wavelength=516.0, " +
                                     "upper_wavelength=519.0, center_w" +
                                     "avelengths=[516.7, 517.3, " + "518.4])"

  /** Rewrites the comment above the primary region and renames the region (lines
      41-54): from the comment's first line, across lines, to the `potassium_region:`
      after its last line. */
  function MagnesiumCommentRule(): Rule {
    ReSub(
      Pattern(
        [Lit(PotassiumCommentHead),
        AnyLazy,
        Lit(PotassiumCommentLast),
        Spaces,
        Lit("potassium_region:")],
        true, false),
      MagnesiumComment + "magnesium_region:",
      0)
  }

  /** The definition of the region called `name` with the potassium values. */
  function RegionPattern(name: string): Pattern {
    Pattern([Lit(name + PeakRegionOpen), Spaces, Lit(PotassiumRegionValues)], false, false)
  }

  /** Rewrites the definition of `potassium_region` with the magnesium values (lines
      57-61). */
  function PotassiumRegionRule(): Rule {
    ReSub(RegionPattern("potassium_region:"), MagnesiumRegionDefinition, 0)
  }

  /** The same rewrite of the definition once lines 41-54 have renamed the region. */
  function MagnesiumRegionRule(): Rule {
    ReSub(RegionPattern("magnesium_region:"), MagnesiumRegionDefinition, 0)
  }

  /** The definition of a region with the potassium values, after `before` (which ends
      with the region's name). */
  function RegionText(before: string): string {
    before + RegionTail
  }

  /** What follows the region's name: the head of its definition and the potassium values. */
  const RegionTail := PeakRegionOpen + ValuesGap + PotassiumRegionValues

  /** A potassium primary region: the first and last lines of its comment, then its
      definition. */
  const PotassiumRegionBlock := PotassiumCommentHead + LineGap + PotassiumCommentLast + LineGap
                               + ("potassium_region:" + RegionTail)

  /** The same region after lines 41-54: the magnesium comment and name, the potassium
      values. */
  const RenamedRegion := RegionText(MagnesiumComment + "magnesium_region:")

  /** The pattern of lines 41-54 matches a comment of two lines `h` and `l` followed by
      the name `nm`, whitespace `g` between them, up to the end of the name. */
  lemma CommentPatternMatches(h: string, l: string, nm: string, g: string, rest: string)
    requires l != [] && nm != [] && !IsSpace(nm[0])
    requires g != [] && forall i :: 0 <= i < |g| ==> IsSpace(g[i]) && g[i] != l[0]
    ensures MatchAt(Pattern([Lit(h), AnyLazy, Lit(l), Spaces, Lit(nm)], true, false),
                    h + g + l + g + (nm + rest)) == Some(|h| + |g| + |l| + |g| + |nm|)
  {
    var p := Pattern([Lit(h), AnyLazy, Lit(l), Spaces, Lit(nm)], true, false);
    var t2 := g + (nm + rest);
    LitSpacesLit(p, 2, l, g, nm, rest);
    LitLazyLit(p, 0, h, g, l, t2);
    assert h + g + l + g + (nm + rest) == h + (g + (l + t2));
  }

  /** Every match of that pattern takes at least both lines, one whitespace character
      and the name. */
  lemma CommentPatternLength(h: string, l: string, nm: string)
    ensures MinLength(Pattern([Lit(h), AnyLazy, Lit(l), Spaces, Lit(nm)], true, false), 0)
         == |h| + |l| + 1 + |nm|
  {
    var p := Pattern([Lit(h), AnyLazy, Lit(l), Spaces, Lit(nm)], true, false);
    assert MinLength(p, 4) == |nm|;
    assert MinLength(p, 2) == |l| + 1 + |nm|;
  }

  /** So the rule replaces the comment and the name and keeps the `rest`, which is too
      short for a second match. */
  lemma CommentRuleOn(h: string, l: string, nm: string, g: string, rest: string, r: string)
    requires h != [] && l != [] && nm != [] && !IsSpace(nm[0])
    requires g != [] && forall i :: 0 <= i < |g| ==> IsSpace(g[i]) && g[i] != l[0]
    requires |rest| < |h| + |l| + 1 + |nm|
    ensures Sub(Pattern([Lit(h), AnyLazy, Lit(l), Spaces, Lit(nm)], true, false), Fixed(r),
                h + g + l + g + (nm + rest), 0) == r + rest
  {
    var p := Pattern([Lit(h), AnyLazy, Lit(l), Spaces, Lit(nm)], true, false);
    var s := h + g + l + g + (nm + rest);
    var n := |h| + |g| + |l| + |g| + |nm|;
    CommentPatternMatches(h, l, nm, g, rest);
    ScanHit(p, s, Fixed(r), All);
    assert s[n..] == rest;
    CommentPatternLength(h, l, nm);
    ScanTooShort(p, rest, Fixed(r), All);
  }

  /** Lines 41-54 rewrite the comment of a potassium primary region and rename the region,
      and leave its definition alone. */
  lemma CommentRuleRenamesRegion(s: string)
    requires s == PotassiumRegionBlock
    ensures Apply(MagnesiumCommentRule(), s) == RenamedRegion
  {
    assert |RegionTail| < |PotassiumCommentHead| + |PotassiumCommentLast| + 1 + |"potassium_region:"|;
    CommentRuleOn(PotassiumCommentHead, PotassiumCommentLast, "potassium_region:", LineGap,
                  RegionTail, MagnesiumComment + "magnesium_region:");
  }

  /** No line of the magnesium comment holds a `K`. */
  lemma HeadingHasNoK()
    ensures 'K' !in MagnesiumHeading && 'K' !in MagnesiumSources
  {
  }

  lemma ResonanceLineHasNoK()
    ensures 'K' !in MagnesiumResonanceLine && 'K' !in MagnesiumStrongLine
  {
  }

  lemma TripletLineHasNoK()
    ensures 'K' !in MagnesiumTripletLine
  {
  }

  lemma IonicLineHasNoK()
    ensures 'K' !in MagnesiumIonicLine
  {
  }

  lemma RegionHeadingHasNoK()
    ensures 'K' !in MagnesiumRegionHeading
  {
  }

  /** So the magnesium comment holds none. */
  lemma MagnesiumCommentHasNoK()
    ensures 'K' !in MagnesiumComment
  {
    HeadingHasNoK();
    ResonanceLineHasNoK();
    TripletLineHasNoK();
    IonicLineHasNoK();
    RegionHeadingHasNoK();
    assert 'K' !in LineGap && 'K' !in "\n";
  }

  /** The pieces of a region's definition: the `K` of `K_I` is the first `K` of the
      values, no `K` comes between the name and the values, the whitespace before the
      values is all space, and the head of the definition ends with `(`. */
  lemma RegionPieces()
    ensures |PotassiumRegionValues| > 9 && PotassiumRegionValues[9] == 'K'
    ensures forall i :: 0 <= i < 9 ==> PotassiumRegionValues[i] != 'K'
    ensures !IsSpace(PotassiumRegionValues[0])
    ensures ValuesGap != [] && forall i :: 0 <= i < |ValuesGap| ==> IsSpace(ValuesGap[i])
    ensures 'K' !in PeakRegionOpen && 'K' !in ValuesGap
    ensures PeakRegionOpen != [] && PeakRegionOpen[|PeakRegionOpen| - 1] == '('
  {
  }

  /** In a region's text whose prefix holds no `K`, a region pattern can match only where
      its name ends that prefix: the `K` of `K_I` fixes where the values start, and the `(`
      before the whitespace fixes where the name ends. */
  lemma RegionMatchStart(name: string, before: string, j: nat)
    requires name != [] && 'K' !in before
    requires j <= |RegionText(before)|
    ensures MatchAt(RegionPattern(name), RegionText(before)[j..]).Some? ==>
      j + |name| == |before| && RegionText(before)[j] == name[0]
  {
    var t := RegionText(before);
    if MatchAt(RegionPattern(name), t[j..]).Some? {
      var y := before + PeakRegionOpen;
      var a := name + PeakRegionOpen;
      RegionPieces();
      assert t == y + ValuesGap + PotassiumRegionValues;
      SpacedPairPinned(a, y, ValuesGap, PotassiumRegionValues, 9, j);
      assert t[j] == t[j..][0] == a[0];
    }
  }

  /** A region rule keyed on `name` rewrites the definition that `name` starts, and keeps
      what comes before it. */
  lemma RegionRuleRewrites(name: string, before: string, s: string)
    requires name != [] && 'K' !in before && 'K' !in name
    requires s == RegionText(before + name)
    ensures Sub(RegionPattern(name), Fixed(MagnesiumRegionDefinition), s, 0)
         == before + MagnesiumRegionDefinition
  {
    var p := RegionPattern(name);
    var m := name + RegionTail;
    assert s == before + m;
    forall j | 0 <= j < |before|
      ensures MatchAt(p, s[j..]).None?
    {
      RegionMatchStart(name, before + name, j);
    }
    var a := name + PeakRegionOpen;
    assert m == a + (ValuesGap + PotassiumRegionValues);
    RegionPieces();
    SpacedPairWhole(a, ValuesGap, PotassiumRegionValues);
    SubTail(p, MagnesiumRegionDefinition, before, m);
  }

  /** Lines 57-61 rewrite the potassium region's definition when they see it. */
  lemma RegionRuleRewritesPotassiumRegion(s: string)
    requires s == RegionText("potassium_region:")
    ensures Apply(PotassiumRegionRule(), s) == MagnesiumRegionDefinition
  {
    assert [] + "potassium_region:" == "potassium_region:";
    RegionRuleRewrites("potassium_region:", [], s);
  }

  /** But after lines 41-54 no position of the text starts their pattern. */
  lemma RegionRuleMissesRenamedRegion(s: string)
    requires s == RenamedRegion
    ensures Apply(PotassiumRegionRule(), s) == s
  {
    var before := MagnesiumComment + "magnesium_region:";
    var p := RegionPattern("potassium_region:");
    MagnesiumCommentHasNoK();
    assert s[|MagnesiumComment|] == 'm';
    forall j | 0 <= j <= |s|
      ensures MatchAt(p, s[j..]).None?
    {
      RegionMatchStart("potassium_region:", before, j);
    }
    NoMatchAnywhere(p, s);
    NoMatchUnchanged(p, Fixed(MagnesiumRegionDefinition), s, 0);
  }

  /** The definition rule keyed on the new name rewrites the renamed region. */
  lemma MagnesiumRegionRuleRewritesRenamed(s: string)
    requires s == RenamedRegion
    ensures Apply(MagnesiumRegionRule(), s) == MagnesiumComment + MagnesiumRegionDefinition
  {
    MagnesiumCommentHasNoK();
    RegionRuleRewrites("magnesium_region:", MagnesiumComment, s);
  }
}
