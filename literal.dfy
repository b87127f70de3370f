/** Python's `str.replace(old, new[, count])`, which is also what `re.sub` does when its
    pattern is plain text once the escapes are removed: the string is scanned from left to
    right, the leftmost non-overlapping occurrences of `old` are replaced, and the text
    between them is copied unchanged. Absence of `old` is a silent no-op. */
module Literal {

  /** `pat` occurs in `s` starting at index `i`. */
  predicate OccursAt(s: string, pat: string, i: nat) {
    i <= |s| && pat <= s[i..]
  }

  /** Python's `pat in s`. */
  predicate Contains(s: string, pat: string) {
    exists i: nat | i <= |s| :: OccursAt(s, pat, i)
  }

  /** Text placed between two others occurs there. */
  lemma OccursInMiddle(a: string, b: string, c: string)
    ensures OccursAt(a + b + c, b, |a|) && Contains(a + b + c, b)
  {
    assert (a + b + c)[|a|..] == b + c;
    assert OccursAt(a + b + c, b, |a|);
  }

  function Min(a: nat, b: nat): nat {
    if a <= b then a else b
  }

  /** The number of occurrences the left-to-right scan replaces. */
  function Occurrences(s: string, pat: string): nat
    requires pat != []
    decreases |s|
  {
    if pat <= s then 1 + Occurrences(s[|pat|..], pat)
    else if s == [] then 0
    else Occurrences(s[1..], pat)
  }

  /** `s.replace(pat, rep)`: every occurrence replaced. */
  function ReplaceAll(s: string, pat: string, rep: string): string
    requires pat != []
    decreases |s|
  {
    if pat <= s then rep + ReplaceAll(s[|pat|..], pat, rep)
    else if s == [] then []
    else [s[0]] + ReplaceAll(s[1..], pat, rep)
  }

  /** The same scan stopped after `n` replacements (`count=n`, for `n > 0`). */
  function ReplaceFirst(s: string, pat: string, rep: string, n: nat): string
    requires pat != []
    decreases |s|
  {
    if n == 0 then s
    else if pat <= s then rep + ReplaceFirst(s[|pat|..], pat, rep, n - 1)
    else if s == [] then []
    else [s[0]] + ReplaceFirst(s[1..], pat, rep, n)
  }

  /** Where the scan of `ReplaceFirst(s, pat, _, n)` stops: just after the `n`-th
      replaced occurrence, or the end of `s` when there are fewer than `n`. */
  function Cut(s: string, pat: string, n: nat): (e: nat)
    requires pat != []
    ensures e <= |s|
    decreases |s|
  {
    if n == 0 then 0
    else if pat <= s then |pat| + Cut(s[|pat|..], pat, n - 1)
    else if s == [] then 0
    else 1 + Cut(s[1..], pat, n)
  }

  lemma MulSucc(k: nat, d: int)
    ensures (k + 1) * d == k * d + d
  {
  }

  /** Each replaced occurrence changes the length by `|rep| - |pat|`. */
  lemma {:induction false} ReplaceAllLength(s: string, pat: string, rep: string)
    requires pat != []
    ensures |ReplaceAll(s, pat, rep)| == |s| + Occurrences(s, pat) * (|rep| - |pat|)
    decreases |s|
  {
    if pat <= s {
      ReplaceAllLength(s[|pat|..], pat, rep);
      MulSucc(Occurrences(s[|pat|..], pat), |rep| - |pat|);
    } else if s != [] {
      ReplaceAllLength(s[1..], pat, rep);
    }
  }

  /** Dropping a first character that does not start an occurrence neither adds nor
      removes one. */
  lemma ContainsTail(s: string, pat: string)
    requires s != [] && !(pat <= s)
    ensures Contains(s, pat) <==> Contains(s[1..], pat)
  {
    if Contains(s, pat) {
      var i: nat :| i <= |s| && OccursAt(s, pat, i);
      assert i != 0;
      assert s[1..][i - 1..] == s[i..];
      assert OccursAt(s[1..], pat, i - 1);
    }
    if Contains(s[1..], pat) {
      var j: nat :| j <= |s[1..]| && OccursAt(s[1..], pat, j);
      assert s[1..][j..] == s[j + 1..];
      assert OccursAt(s, pat, j + 1);
    }
  }

  /** The scan finds an occurrence exactly when the pattern occurs at all. */
  lemma {:induction false} OccurrencesZeroIff(s: string, pat: string)
    requires pat != []
    ensures Occurrences(s, pat) == 0 <==> !Contains(s, pat)
    decreases |s|
  {
    if pat <= s {
      assert OccursAt(s, pat, 0);
    } else if s == [] {
    } else {
      ContainsTail(s, pat);
      OccurrencesZeroIff(s[1..], pat);
    }
  }

  /** Absence is a silent no-op: with no occurrence the content comes back unchanged. */
  lemma {:induction false} AbsentUnchanged(s: string, pat: string, rep: string, n: nat)
    requires pat != [] && !Contains(s, pat)
    ensures ReplaceAll(s, pat, rep) == s
    ensures ReplaceFirst(s, pat, rep, n) == s
    decreases |s|
  {
    assert !OccursAt(s, pat, 0);
    if s != [] {
      ContainsTail(s, pat);
      AbsentUnchanged(s[1..], pat, rep, n);
    }
  }

  /** A rule whose replacement equals its pattern is the identity on every input. */
  lemma {:induction false} SelfReplaceIdentity(s: string, pat: string)
    requires pat != []
    ensures ReplaceAll(s, pat, pat) == s
    decreases |s|
  {
    if pat <= s {
      SelfReplaceIdentity(s[|pat|..], pat);
      assert pat + s[|pat|..] == s;
    } else if s != [] {
      SelfReplaceIdentity(s[1..], pat);
      assert [s[0]] + s[1..] == s;
    }
  }

  /** `s.replace(pat, rep) == s` exactly when `pat` is absent or `rep == pat`. */
  lemma {:induction false} UnchangedIff(s: string, pat: string, rep: string)
    requires pat != []
    ensures ReplaceAll(s, pat, rep) == s <==> (!Contains(s, pat) || rep == pat)
    decreases |s|
  {
    if !Contains(s, pat) {
      AbsentUnchanged(s, pat, rep, 0);
    } else if rep == pat {
      SelfReplaceIdentity(s, pat);
    } else if pat <= s {
      ChangedAtOccurrence(s, pat, rep);
    } else {
      ContainsTail(s, pat);
      UnchangedIff(s[1..], pat, rep);
      UnchangedSkip(s, pat, rep);
    }
  }

  /** An occurrence at the start that is replaced by different text changes the result. */
  lemma ChangedAtOccurrence(s: string, pat: string, rep: string)
    requires pat != [] && pat <= s && rep != pat
    ensures ReplaceAll(s, pat, rep) != s
  {
    var r := ReplaceAll(s, pat, rep);
    if |rep| == |pat| {
      assert r[..|pat|] == rep;
      assert s[..|pat|] == pat;
    } else {
      ReplaceAllLength(s, pat, rep);
      assert Occurrences(s, pat) >= 1;
      assert Occurrences(s, pat) * (|rep| - |pat|) != 0;
    }
  }

  /** A first character that starts no occurrence is copied, so the result is unchanged
      exactly when the result for the rest is. */
  lemma UnchangedSkip(s: string, pat: string, rep: string)
    requires pat != [] && s != [] && !(pat <= s)
    ensures ReplaceAll(s, pat, rep) == s <==> ReplaceAll(s[1..], pat, rep) == s[1..]
  {
    var r := ReplaceAll(s, pat, rep);
    assert r == [s[0]] + ReplaceAll(s[1..], pat, rep);
    assert s == [s[0]] + s[1..];
  }

  lemma NotPrefixOfCut(s: string, pat: string, e: nat)
    requires e <= |s| && !(pat <= s)
    ensures !(pat <= s[..e])
  {
  }

  /** The part of `s` before the cut holds `min(n, Occurrences)` occurrences: at most `n`
      are replaced. */
  lemma {:induction false} CutOccurrences(s: string, pat: string, n: nat)
    requires pat != []
    ensures Occurrences(s[..Cut(s, pat, n)], pat) == Min(n, Occurrences(s, pat))
    decreases |s|, 1
  {
    if n == 0 {
      assert s[..Cut(s, pat, n)] == [];
    } else if pat <= s {
      CutOccurrencesHit(s, pat, n);
    } else if s != [] {
      CutOccurrencesSkip(s, pat, n);
    }
  }

  /** `CutOccurrences` where `pat` starts `s`: that occurrence is counted and replaced. */
  lemma {:induction false} CutOccurrencesHit(s: string, pat: string, n: nat)
    requires pat != [] && n > 0 && pat <= s
    ensures Occurrences(s[..Cut(s, pat, n)], pat) == Min(n, Occurrences(s, pat))
    decreases |s|, 0
  {
    var rest, m := s[|pat|..], n - 1;
    CutOccurrences(rest, pat, m);
    var e' := Cut(rest, pat, m);
    var pre := s[..Cut(s, pat, n)];
    assert pre == s[..|pat| + e'];
    assert pat <= pre;
    assert pre[|pat|..] == rest[..e'];
    assert Occurrences(pre, pat) == 1 + Occurrences(rest[..e'], pat);
  }

  /** `CutOccurrences` where `pat` does not start `s`: the first character is copied. */
  lemma {:induction false} CutOccurrencesSkip(s: string, pat: string, n: nat)
    requires pat != [] && n > 0 && !(pat <= s) && s != []
    ensures Occurrences(s[..Cut(s, pat, n)], pat) == Min(n, Occurrences(s, pat))
    decreases |s|, 0
  {
    var rest := s[1..];
    CutOccurrences(rest, pat, n);
    var e' := Cut(rest, pat, n);
    var e := Cut(s, pat, n);
    var pre := s[..e];
    NotPrefixOfCut(s, pat, e);
    assert pre[1..] == rest[..e'];
    assert Occurrences(pre, pat) == Occurrences(rest[..e'], pat);
  }

  /** With a limit of `n`, the result is the full replacement of the part of `s` before
      the cut followed by the rest of `s` byte for byte. */
  lemma {:induction false} ReplaceFirstSplit(s: string, pat: string, rep: string, n: nat)
    requires pat != []
    ensures ReplaceFirst(s, pat, rep, n)
         == ReplaceAll(s[..Cut(s, pat, n)], pat, rep) + s[Cut(s, pat, n)..]
    decreases |s|
  {
    if n == 0 {
      assert s[..0] == [] && s[0..] == s;
    } else if pat <= s {
      ReplaceFirstSplit(s[|pat|..], pat, rep, n - 1);
      SplitAfterOccurrence(s, pat, rep, n);
    } else if s != [] {
      ReplaceFirstSplit(s[1..], pat, rep, n);
      SplitAfterSkip(s, pat, rep, n);
    }
  }

  /** The step of `ReplaceFirstSplit` where `s` starts with an occurrence. */
  lemma SplitAfterOccurrence(s: string, pat: string, rep: string, n: nat)
    requires pat != [] && n > 0 && pat <= s
    requires var rest := s[|pat|..]; var e' := Cut(rest, pat, n - 1);
      ReplaceFirst(rest, pat, rep, n - 1) == ReplaceAll(rest[..e'], pat, rep) + rest[e'..]
    ensures ReplaceFirst(s, pat, rep, n)
         == ReplaceAll(s[..Cut(s, pat, n)], pat, rep) + s[Cut(s, pat, n)..]
  {
    var e := Cut(s, pat, n);
    var pre := s[..e];
    var rest := s[|pat|..];
    var e' := Cut(rest, pat, n - 1);
    assert pat <= pre;
    assert pre[|pat|..] == rest[..e'];
    assert s[e..] == rest[e'..];
    calc {
      ReplaceFirst(s, pat, rep, n);
      rep + ReplaceFirst(rest, pat, rep, n - 1);
      rep + (ReplaceAll(rest[..e'], pat, rep) + rest[e'..]);
      (rep + ReplaceAll(pre[|pat|..], pat, rep)) + s[e..];
      ReplaceAll(pre, pat, rep) + s[e..];
    }
  }

  /** The step of `ReplaceFirstSplit` where the first character of `s` is copied. */
  lemma SplitAfterSkip(s: string, pat: string, rep: string, n: nat)
    requires pat != [] && n > 0 && !(pat <= s) && s != []
    requires var rest := s[1..]; var e' := Cut(rest, pat, n);
      ReplaceFirst(rest, pat, rep, n) == ReplaceAll(rest[..e'], pat, rep) + rest[e'..]
    ensures ReplaceFirst(s, pat, rep, n)
         == ReplaceAll(s[..Cut(s, pat, n)], pat, rep) + s[Cut(s, pat, n)..]
  {
    var e := Cut(s, pat, n);
    var pre := s[..e];
    var rest := s[1..];
    var e' := Cut(rest, pat, n);
    assert e == 1 + e';
    assert pre[1..] == rest[..e'];
    assert ReplaceAll(pre, pat, rep) == [s[0]] + ReplaceAll(rest[..e'], pat, rep) by {
      NotPrefixOfCut(s, pat, e);
    }
    assert s[e..] == rest[e'..];
    assert ReplaceFirst(s, pat, rep, n) == [s[0]] + ReplaceFirst(rest, pat, rep, n);
    ConsConcat(s[0], ReplaceAll(rest[..e'], pat, rep), rest[e'..]);
  }

  lemma ConsConcat(c: char, a: string, b: string)
    ensures [c] + (a + b) == ([c] + a) + b
  {
  }

  /** A limit at least the number of occurrences is no limit. */
  lemma {:induction false} EnoughCountIsAll(s: string, pat: string, rep: string, n: nat)
    requires pat != [] && Occurrences(s, pat) <= n
    ensures ReplaceFirst(s, pat, rep, n) == ReplaceAll(s, pat, rep)
    decreases |s|
  {
    if n == 0 {
      OccurrencesZeroIff(s, pat);
      AbsentUnchanged(s, pat, rep, 0);
    } else if pat <= s {
      EnoughCountIsAll(s[|pat|..], pat, rep, n - 1);
    } else if s != [] {
      EnoughCountIsAll(s[1..], pat, rep, n);
    }
  }

  /** Text `v` whose character at `q` occurs neither in `x` nor earlier in `v` starts in
      `x + v` only right after `x`. */
  lemma UniqueAnchor(x: string, v: string, q: nat, b: nat)
    requires q < |v| && v[q] !in x
    requires forall i :: 0 <= i < q ==> v[i] != v[q]
    requires b <= |x| && v <= (x + v)[b..]
    ensures b == |x|
  {
    assert (x + v)[b + q] == v[q];
    if |x| <= b + q {
      assert (x + v)[b + q] == v[b + q - |x|];
    }
  }
}
