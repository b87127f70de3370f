/** The rewrite engine: each `update_*` function of the migration script rebinds
    `content` to the result of one rewrite after another. A rewrite is one of the three
    kinds of `Rule` below, and a list of them is applied in declared order, each step
    seeing only the previous step's output. */
module Engine {
  import Literal
  import opened Regex

  datatype Rule =
    /** `content = content.replace(find, replacement)` */
    | StrReplace(find: string, replacement: string)
    /** `content = re.sub(pattern, repl, content, count=count, flags=...)`, the flags
        being part of `pattern`; a count of 0 means no limit */
    | ReSub(pattern: Pattern, repl: string, count: nat)
    /** `if marker not in content: content = re.sub(r'(<anchor>)\n', r'\1\n' + text,
        content)`; `anchor` here includes the final newline, and the template re-emits
        the whole match before `text` */
    | InsertAfter(marker: string, anchor: Pattern, text: string)

  /** One rewrite step. */
  function Apply(r: Rule, s: string): string
  {
    match r
    case StrReplace(find, replacement) =>
      // An empty `find` occurs at every position, the empty pattern's matches.
      if find == [] then Sub(LitPattern([], false), Fixed(replacement), s, 0)
      else Literal.ReplaceAll(s, find, replacement)
    case ReSub(p, repl, count) => Sub(p, Fixed(repl), s, count)
    case InsertAfter(marker, anchor, text) =>
      if Literal.Contains(s, marker) then s else Sub(anchor, AfterMatch(text), s, 0)
  }

  /** The rules applied in declared order: the first to `s`, the next to its result. */
  function ApplyAll(rules: seq<Rule>, s: string): string
    decreases |rules|
  {
    if rules == [] then s else ApplyAll(rules[1..], Apply(rules[0], s))
  }

  /** `for pattern, replacement in replacements: content = re.sub(...)`. */
  method RunRules(rules: seq<Rule>, content: string) returns (result: string)
    ensures result == ApplyAll(rules, content)
  {
    result := content;
    assert rules[0..] == rules;
    for i := 0 to |rules|
      invariant ApplyAll(rules[i..], result) == ApplyAll(rules, content)
    {
      assert rules[i..][1..] == rules[i + 1..];
      result := Apply(rules[i], result);
    }
    assert rules[|rules|..] == [];
  }

  /** A list of `(pattern, replacement)` pairs of plain text, as the script writes them,
      each applied with `re.sub` (with or without IGNORECASE) and no count. */
  function PlainRules(pairs: seq<(string, string)>, ignoreCase: bool): seq<Rule> {
    seq(|pairs|, i requires 0 <= i < |pairs| => ReSub(LitPattern(pairs[i].0, ignoreCase), pairs[i].1, 0))
  }

  /** The reference reading of such a list: `content.replace(pattern, replacement)` for
      each pair in turn. */
  function ReplaceEach(pairs: seq<(string, string)>, s: string): string
    requires forall i :: 0 <= i < |pairs| ==> pairs[i].0 != []
    decreases |pairs|
  {
    if pairs == [] then s else ReplaceEach(pairs[1..], Literal.ReplaceAll(s, pairs[0].0, pairs[0].1))
  }

  /** Case-sensitive `re.sub` over a list of plain-text pairs is `str.replace` over the
      same list. */
  lemma {:induction false} PlainRulesAreReplaces(pairs: seq<(string, string)>, s: string)
    requires forall i :: 0 <= i < |pairs| ==> pairs[i].0 != []
    ensures ApplyAll(PlainRules(pairs, false), s) == ReplaceEach(pairs, s)
    decreases |pairs|
  {
    if pairs != [] {
      var rules := PlainRules(pairs, false);
      assert rules[1..] == PlainRules(pairs[1..], false);
      LiteralSubIsReplace(pairs[0].0, pairs[0].1, s, All);
      PlainRulesAreReplaces(pairs[1..], Literal.ReplaceAll(s, pairs[0].0, pairs[0].1));
    }
  }

  /** Four rules in a row, step by step. */
  lemma ApplyAllFour(rules: seq<Rule>, a: string, b: string, c: string, d: string, e: string)
    requires |rules| == 4
    requires Apply(rules[0], a) == b && Apply(rules[1], b) == c
    requires Apply(rules[2], c) == d && Apply(rules[3], d) == e
    ensures ApplyAll(rules, a) == e
  {
    assert ApplyAll(rules[3..], d) == e by { assert rules[3..][1..] == []; }
    assert ApplyAll(rules[2..], c) == e by { assert rules[2..][1..] == rules[3..]; }
    assert ApplyAll(rules[1..], b) == e by { assert rules[1..][1..] == rules[2..]; }
  }

  /** Two rules in a row, step by step. */
  lemma ApplyAllTwo(rules: seq<Rule>, a: string, b: string, c: string)
    requires |rules| == 2 && Apply(rules[0], a) == b && Apply(rules[1], b) == c
    ensures ApplyAll(rules, a) == c
  {
    assert ApplyAll(rules[1..], b) == c by { assert rules[1..][1..] == []; }
  }

  /** Running one list after another is running their concatenation: each step sees
      only the output of the step before it. */
  lemma {:induction false} ApplyAllAppend(a: seq<Rule>, b: seq<Rule>, s: string)
    ensures ApplyAll(a + b, s) == ApplyAll(b, ApplyAll(a, s))
    decreases |a|
  {
    if a == [] {
      assert a + b == b;
    } else {
      assert (a + b)[1..] == a[1..] + b;
      ApplyAllAppend(a[1..], b, Apply(a[0], s));
    }
  }

  /** A string replacement whose text is absent changes nothing; it is not an error. */
  lemma StrReplaceAbsent(find: string, replacement: string, s: string)
    requires find != [] && !Literal.Contains(s, find)
    ensures Apply(StrReplace(find, replacement), s) == s
  {
    Literal.AbsentUnchanged(s, find, replacement, 0);
  }

  /** A substitution whose pattern matches nowhere changes nothing. */
  lemma ReSubNoMatch(p: Pattern, repl: string, count: nat, s: string)
    requires Search(p, s).None?
    ensures Apply(ReSub(p, repl, count), s) == s
  {
    NoMatchUnchanged(p, Fixed(repl), s, count);
  }

  /** A plain-text substitution leaves the content unchanged exactly when its text is
      absent or its replacement equals its pattern. */
  lemma LiteralSubUnchangedIff(x: string, repl: string, s: string)
    requires x != []
    ensures Apply(ReSub(LitPattern(x, false), repl, 0), s) == s
        <==> (!Literal.Contains(s, x) || repl == x)
  {
    LiteralSubIsReplace(x, repl, s, All);
    Literal.UnchangedIff(s, x, repl);
  }

  /** A plain-text substitution limited to `n > 0` replacements replaces the first
      `min(n, occurrences)` occurrences, and everything after the last replaced one is
      the input unchanged. */
  lemma LimitedSubKeepsRest(x: string, repl: string, n: nat, s: string)
    requires x != [] && n > 0
    ensures Apply(ReSub(LitPattern(x, false), repl, n), s)
         == Literal.ReplaceAll(s[..Literal.Cut(s, x, n)], x, repl) + s[Literal.Cut(s, x, n)..]
    ensures Literal.Occurrences(s[..Literal.Cut(s, x, n)], x)
         == Literal.Min(n, Literal.Occurrences(s, x))
  {
    LiteralSubIsReplace(x, repl, s, AtMost(n));
    Literal.ReplaceFirstSplit(s, x, repl, n);
    Literal.CutOccurrences(s, x, n);
  }

  /** A deletion rule (empty replacement) never makes the content longer. */
  lemma DeletionNeverGrows(p: Pattern, count: nat, s: string)
    requires Consuming(p)
    ensures |Apply(ReSub(p, [], count), s)| <= |s|
    ensures |Apply(ReSub(p, [], count), s)| < |s| <==> Search(p, s).Some?
  {
    DeletionShrinks(p, s, if count == 0 then All else AtMost(count));
  }

  lemma ContainsSlice(s: string, a: nat, b: nat, m: string)
    requires a <= b <= |s| && Literal.Contains(s[a..b], m)
    ensures Literal.Contains(s, m)
  {
    var j: nat :| j <= |s[a..b]| && Literal.OccursAt(s[a..b], m, j);
    var k := a + j;
    assert |m| <= b - k;
    forall i | 0 <= i < |m|
      ensures s[k..][i] == m[i]
    {
      assert m[i] == s[a..b][j..][i] == s[a..b][j + i];
    }
    assert s[k..][..|m|] == m;
    assert Literal.OccursAt(s, m, k);
  }

  lemma RegroupInsert(a: string, b: string, c: string, d: string)
    ensures a + (b + c) + d == (a + b) + c + d
    ensures ((a + b) + c + d)[..|a + b|] == a + b
    ensures |a + b| + |c| <= |(a + b) + c + d|
    ensures ((a + b) + c + d)[|a + b|..|a + b| + |c|] == c
  {
  }

  lemma InsertionIsScan(marker: string, anchor: Pattern, text: string, s: string)
    requires !Literal.Contains(s, marker)
    ensures Apply(InsertAfter(marker, anchor, text), s) == Scan(anchor, s, AfterMatch(text), All)
  {
  }

  /** The guarded insertion when the marker is absent and the anchor first matches at
      `i` with length `n`: everything up to the end of that match is the input
      unchanged (so the anchor text is still there, re-emitted by `\1`), and the
      inserted text follows it. */
  lemma InsertAfterFirstAnchor(marker: string, anchor: Pattern, text: string, s: string,
                               i: nat, n: nat)
    requires Consuming(anchor) && !Literal.Contains(s, marker)
    requires Search(anchor, s) == Some((i, n))
    ensures i + n <= |s|
    ensures i + n + |text| <= |Apply(InsertAfter(marker, anchor, text), s)|
    ensures Apply(InsertAfter(marker, anchor, text), s)[..i + n] == s[..i + n]
    ensures Apply(InsertAfter(marker, anchor, text), s)[i + n..i + n + |text|] == text
  {
    InsertionAtSearch(marker, anchor, text, s, i, n);
    InsertedLayout(s, i, n, text, Scan(anchor, s[i + n..], AfterMatch(text), All),
                   Apply(InsertAfter(marker, anchor, text), s));
  }

  /** The guarded insertion, marker absent, as the text before the first anchor match,
      the match followed by the new text, and the scan of the rest. */
  lemma InsertionAtSearch(marker: string, anchor: Pattern, text: string, s: string,
                          i: nat, n: nat)
    requires Consuming(anchor) && !Literal.Contains(s, marker)
    requires Search(anchor, s) == Some((i, n))
    ensures i + n <= |s|
    ensures Apply(InsertAfter(marker, anchor, text), s)
         == s[..i] + (s[i..i + n] + text) + Scan(anchor, s[i + n..], AfterMatch(text), All)
  {
    ScanAtSearch(anchor, s, AfterMatch(text), All, i, n);
    InsertionIsScan(marker, anchor, text, s);
    assert Next(All) == All;
    assert Expand(AfterMatch(text), s[i..i + n]) == s[i..i + n] + text;
  }

  lemma InsertedLayout(s: string, i: nat, n: nat, text: string, rest: string, r: string)
    requires i + n <= |s| && r == s[..i] + (s[i..i + n] + text) + rest
    ensures i + n + |text| <= |r|
    ensures r[..i + n] == s[..i + n]
    ensures r[i + n..i + n + |text|] == text
  {
    RegroupInsert(s[..i], s[i..i + n], text, rest);
    assert s[..i] + s[i..i + n] == s[..i + n];
  }

  /** The guarded insertion of lines 107-114 changes nothing, and raises nothing, when
      the marker is already present or the anchor matches nowhere. */
  lemma GuardedInsertionSkips(marker: string, anchor: Pattern, text: string, s: string)
    ensures Literal.Contains(s, marker) ==> Apply(InsertAfter(marker, anchor, text), s) == s
    ensures Search(anchor, s).None? ==> Apply(InsertAfter(marker, anchor, text), s) == s
  {
    if Search(anchor, s).None? {
      ScanNoMatch(anchor, s, AfterMatch(text), All);
    }
  }

  /** When it does insert, after the first match of the anchor at `i` (length `n`), the
      result still contains the anchor text, and contains the marker when the inserted
      text does. */
  lemma GuardedInsertionAdds(marker: string, anchor: Pattern, text: string, s: string,
                             i: nat, n: nat)
    requires Consuming(anchor) && !Literal.Contains(s, marker)
    requires Search(anchor, s) == Some((i, n))
    ensures Literal.Contains(Apply(InsertAfter(marker, anchor, text), s), s[i..i + n])
    ensures Literal.Contains(text, marker)
        ==> Literal.Contains(Apply(InsertAfter(marker, anchor, text), s), marker)
  {
    InsertAfterFirstAnchor(marker, anchor, text, s, i, n);
    var r := Apply(InsertAfter(marker, anchor, text), s);
    assert r[i..i + n] == s[i..i + n] by {
      assert r[i..i + n] == r[..i + n][i..];
      assert s[i..i + n] == s[..i + n][i..];
    }
    assert Literal.OccursAt(r[i..i + n], s[i..i + n], 0);
    ContainsSlice(r, i, i + n, s[i..i + n]);
    if Literal.Contains(text, marker) {
      ContainsSlice(r, i + n, i + n + |text|, marker);
    }
  }

  /** Re-running the guarded insertion is a no-op once it has run, provided the
      inserted text carries the marker: the guard is what makes the script safe to run
      twice. */
  lemma GuardedInsertionIdempotent(marker: string, anchor: Pattern, text: string, s: string)
    requires Consuming(anchor) && Literal.Contains(text, marker)
    ensures var g := InsertAfter(marker, anchor, text);
      Apply(g, Apply(g, s)) == Apply(g, s)
  {
    var g := InsertAfter(marker, anchor, text);
    GuardedInsertionSkips(marker, anchor, text, s);
    if !Literal.Contains(s, marker) && Search(anchor, s).Some? {
      var (i, n) := Search(anchor, s).value;
      GuardedInsertionAdds(marker, anchor, text, s, i, n);
    }
    GuardedInsertionSkips(marker, anchor, text, Apply(g, s));
  }
}
