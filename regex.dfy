/** The part of Python's `re.sub` that the migration's patterns use: a pattern is a
    sequence of escaped literal text, `\s+` and `.*?`, under the flags DOTALL and
    IGNORECASE. Matching follows Python's backtracking order (`\s+` takes the longest run
    of whitespace first and gives characters back one at a time, `.*?` takes the shortest
    extension first), and `re.sub` replaces, from left to right, the leftmost match, then
    searches again after its end. */
module Regex {
  import Literal

  datatype Option<T> = None | Some(value: T)

  /** One element of a pattern. */
  datatype Atom =
    | Lit(text: string)  // literal text (the pattern with its escapes removed)
    | Spaces             // `\s+`
    | AnyLazy            // `.*?`

  datatype Pattern = Pattern(atoms: seq<Atom>, dotAll: bool, ignoreCase: bool)

  /** A plain-text pattern, as in `re.sub(r'K_only', ...)`. */
  function LitPattern(x: string, ignoreCase: bool): Pattern {
    Pattern([Lit(x)], false, ignoreCase)
  }

  /** Every match of a pattern that starts with non-empty literal text or with `\s+`
      consumes at least one character, so `re.sub` never meets an empty match. */
  predicate Consuming(p: Pattern) {
    |p.atoms| > 0 &&
    match p.atoms[0]
    case Lit(x) => x != []
    case Spaces => true
    case AnyLazy => false
  }

  /** `\s` on a `str` pattern: the characters for which Python's `str.isspace` holds. */
  predicate IsSpace(c: char) {
    || c == ' '
    || ('\t' <= c <= '\r')
    || ('\U{001C}' <= c <= '\U{001F}')
    || c == '\U{0085}' || c == '\U{00A0}' || c == '\U{1680}'
    || ('\U{2000}' <= c <= '\U{200A}')
    || c == '\U{2028}' || c == '\U{2029}' || c == '\U{202F}' || c == '\U{205F}'
    || c == '\U{3000}'
  }

  /** Case folding for IGNORECASE, on ASCII letters. */
  function Lower(c: char): char {
    if 'A' <= c <= 'Z' then (c as int + 32) as char else c
  }

  function Fold(s: string, ignoreCase: bool): (f: string)
    ensures |f| == |s|
  {
    if ignoreCase then seq(|s|, i requires 0 <= i < |s| => Lower(s[i])) else s
  }

  /** Texts that differ only in the case of their first letter fold alike. */
  lemma FoldFirstCase(c: char, d: char, r: string)
    requires Lower(c) == Lower(d)
    ensures Fold([c] + r, true) == Fold([d] + r, true)
    ensures LitPrefix([c] + r, [d] + r, true)
  {
    assert forall i :: 0 <= i < |r| ==> ([c] + r)[i + 1] == r[i] == ([d] + r)[i + 1];
    assert ([d] + r)[..|[c] + r|] == [d] + r;
  }

  /** Literal text `x` matches at the start of `t`. */
  predicate LitPrefix(x: string, t: string, ignoreCase: bool) {
    |x| <= |t| && Fold(x, ignoreCase) == Fold(t[..|x|], ignoreCase)
  }

  /** The length of the run of whitespace that starts `t`: as long as possible. */
  function SpaceRun(t: string): (w: nat)
    ensures w <= |t|
    ensures forall i :: 0 <= i < w ==> IsSpace(t[i])
    ensures w < |t| ==> !IsSpace(t[w])
  {
    if t != [] && IsSpace(t[0]) then 1 + SpaceRun(t[1..]) else 0
  }

  /** The length of the match of `p.atoms[k..]` at the start of `t`, the first in
      Python's backtracking order, if there is one. */
  function MatchFrom(p: Pattern, k: nat, t: string): (r: Option<nat>)
    requires k <= |p.atoms|
    ensures r.Some? ==> r.value <= |t|
    ensures r.Some? && k < |p.atoms| && p.atoms[k].Lit? ==> |p.atoms[k].text| <= r.value
    ensures r.Some? && k < |p.atoms| && p.atoms[k].Spaces? ==> 1 <= r.value
    decreases |p.atoms| - k, |t| + 1
  {
    if k == |p.atoms| then Some(0)
    else match p.atoms[k]
      case Lit(x) =>
        if LitPrefix(x, t, p.ignoreCase) then
          match MatchFrom(p, k + 1, t[|x|..])
          case Some(n) => Some(|x| + n)
          case None => None
        else None
      case Spaces =>
        var w := SpaceRun(t);
        if w == 0 then None else BackOff(p, k + 1, t, w)
      case AnyLazy => Extend(p, k + 1, t, 0)
  }

  /** `\s+` having taken `w` characters: try the rest after them, then after fewer. */
  function BackOff(p: Pattern, k: nat, t: string, w: nat): (r: Option<nat>)
    requires k <= |p.atoms| && 1 <= w <= |t|
    ensures r.Some? ==> 1 <= r.value <= |t|
    decreases |p.atoms| - k + 1, w
  {
    match MatchFrom(p, k, t[w..])
    case Some(n) => Some(w + n)
    case None => if w == 1 then None else BackOff(p, k, t, w - 1)
  }

  /** `.*?` having taken `j` characters: try the rest after them, then take one more
      (a newline only under DOTALL). */
  function Extend(p: Pattern, k: nat, t: string, j: nat): (r: Option<nat>)
    requires k <= |p.atoms| && j <= |t|
    ensures r.Some? ==> j <= r.value <= |t|
    decreases |p.atoms| - k + 1, |t| - j
  {
    match MatchFrom(p, k, t[j..])
    case Some(n) => Some(j + n)
    case None =>
      if j < |t| && (p.dotAll || t[j] != '\n') then Extend(p, k, t, j + 1) else None
  }

  /** The match of the whole pattern at the start of `t`. */
  function MatchAt(p: Pattern, t: string): (r: Option<nat>)
    ensures r.Some? ==> r.value <= |t|
    ensures r.Some? && Consuming(p) ==> 1 <= r.value
  {
    MatchFrom(p, 0, t)
  }

  /** `re.search`: the leftmost position with a match, and the match's length. */
  function Search(p: Pattern, t: string): (r: Option<(nat, nat)>)
    ensures r.Some? ==> r.value.0 + r.value.1 <= |t|
    decreases |t|
  {
    match MatchAt(p, t)
    case Some(n) => Some((0, n))
    case None =>
      if t == [] then None
      else
        match Search(p, t[1..])
        case None => None
        case Some(m) => Some((m.0 + 1, m.1))
  }

  /** What `re.search` promises: the match it reports is a match, no position before it
      has one, and it reports none only when no position has one. */
  lemma {:induction false} SearchLeftmost(p: Pattern, t: string)
    ensures Search(p, t).Some? ==>
      (MatchAt(p, t[Search(p, t).value.0..]) == Some(Search(p, t).value.1) &&
       forall j :: 0 <= j < Search(p, t).value.0 ==> MatchAt(p, t[j..]).None?)
    ensures Search(p, t).None? ==> forall j :: 0 <= j <= |t| ==> MatchAt(p, t[j..]).None?
    decreases |t|
  {
    assert t[0..] == t;
    if MatchAt(p, t).None? && t != [] {
      var t' := t[1..];
      SearchLeftmost(p, t');
      forall j | 1 <= j <= |t|
        ensures MatchAt(p, t[j..]) == MatchAt(p, t'[j - 1..])
      {
        assert t[j..] == t'[j - 1..];
      }
      if Search(p, t').Some? {
        var i' := Search(p, t').value.0;
        assert t[i' + 1..] == t'[i'..];
      }
    }
  }

  /** `.*?` followed by literal text `b` (the last atom): the extension stops at the first
      place `b` starts, and without DOTALL it never takes a newline. */
  lemma ExtendToFirst(p: Pattern, t: string, j: nat)
    requires |p.atoms| >= 2 && p.atoms[|p.atoms| - 1].Lit?
    requires j <= |t|
    ensures var k := |p.atoms| - 1;
      var b := p.atoms[k].text;
      var r := Extend(p, k, t, j);
      r.Some? ==>
        && j + |b| <= r.value
        && LitPrefix(b, t[r.value - |b|..], p.ignoreCase)
        && (forall i :: j <= i < r.value - |b| ==> !LitPrefix(b, t[i..], p.ignoreCase))
        && (!p.dotAll ==> forall i :: j <= i < r.value - |b| ==> t[i] != '\n')
  {
    var b := p.atoms[|p.atoms| - 1].text;
    ExtendIsFirstEnd(p, t, j);
    FirstEndIsFirst(b, p.ignoreCase, p.dotAll, t, j);
  }

  /** A reference reading of `.*?` before literal text `b`, apart from the matcher: the
      end of the first `b` at or after `j`, passing over no newline unless DOTALL. */
  function FirstEnd(b: string, ic: bool, dotAll: bool, t: string, j: nat): Option<nat>
    requires j <= |t|
    decreases |t| - j
  {
    if LitPrefix(b, t[j..], ic) then Some(j + |b|)
    else if j < |t| && (dotAll || t[j] != '\n') then FirstEnd(b, ic, dotAll, t, j + 1)
    else None
  }

  /** The matcher's `.*?` before a final literal text is the reference reading. */
  lemma {:induction false} ExtendIsFirstEnd(p: Pattern, t: string, j: nat)
    requires |p.atoms| >= 2 && p.atoms[|p.atoms| - 1].Lit?
    requires j <= |t|
    ensures Extend(p, |p.atoms| - 1, t, j)
         == FirstEnd(p.atoms[|p.atoms| - 1].text, p.ignoreCase, p.dotAll, t, j)
    decreases |t| - j
  {
    var b := p.atoms[|p.atoms| - 1].text;
    ExtendStep(p, t, j);
    if !LitPrefix(b, t[j..], p.ignoreCase) && j < |t| && (p.dotAll || t[j] != '\n') {
      ExtendIsFirstEnd(p, t, j + 1);
    }
  }

  /** The reference reading ends at the first `b`, and without DOTALL passes over no
      newline. */
  lemma {:induction false} FirstEndIsFirst(b: string, ic: bool, dotAll: bool, t: string, j: nat)
    requires j <= |t|
    ensures var r := FirstEnd(b, ic, dotAll, t, j);
      r.Some? ==>
        && j + |b| <= r.value <= |t|
        && LitPrefix(b, t[r.value - |b|..], ic)
        && (forall i :: j <= i < r.value - |b| ==> !LitPrefix(b, t[i..], ic))
        && (!dotAll ==> forall i :: j <= i < r.value - |b| ==> t[i] != '\n')
    decreases |t| - j, 1
  {
    if LitPrefix(b, t[j..], ic) {
      assert t[j + |b| - |b|..] == t[j..];
    } else if j < |t| && (dotAll || t[j] != '\n') {
      FirstEndIsFirstSkip(b, ic, dotAll, t, j);
    }
  }

  /** `FirstEndIsFirst` where the reading passes over the character at `j`. */
  lemma {:induction false} FirstEndIsFirstSkip(b: string, ic: bool, dotAll: bool, t: string,
                                               j: nat)
    requires j < |t| && !LitPrefix(b, t[j..], ic) && (dotAll || t[j] != '\n')
    ensures var r := FirstEnd(b, ic, dotAll, t, j);
      r.Some? ==>
        && j + |b| <= r.value <= |t|
        && LitPrefix(b, t[r.value - |b|..], ic)
        && (forall i :: j <= i < r.value - |b| ==> !LitPrefix(b, t[i..], ic))
        && (!dotAll ==> forall i :: j <= i < r.value - |b| ==> t[i] != '\n')
    decreases |t| - j, 0
  {
    var k := j + 1;
    FirstEndIsFirst(b, ic, dotAll, t, k);
    var e := FirstEnd(b, ic, dotAll, t, k);
    assert FirstEnd(b, ic, dotAll, t, j) == e;
    if e.Some? {
      FirstEndFromNext(b, ic, dotAll, t, j, k, e.value);
    }
  }

  /** The end `e` of the first `b` after `k == j + 1` is also the end of the first `b` after
      `j` when `b` does not start at `j` and `.*?` may take the character at `j`. */
  lemma FirstEndFromNext(b: string, ic: bool, dotAll: bool, t: string, j: nat, k: nat, e: nat)
    requires k == j + 1
    requires j < |t| && !LitPrefix(b, t[j..], ic) && (dotAll || t[j] != '\n')
    requires k + |b| <= e <= |t| && LitPrefix(b, t[e - |b|..], ic)
    requires forall i :: k <= i < e - |b| ==> !LitPrefix(b, t[i..], ic)
    requires !dotAll ==> forall i :: k <= i < e - |b| ==> t[i] != '\n'
    ensures j + |b| <= e
    ensures forall i :: j <= i < e - |b| ==> !LitPrefix(b, t[i..], ic)
    ensures !dotAll ==> forall i :: j <= i < e - |b| ==> t[i] != '\n'
  {
  }

  /** One step of `.*?` before literal text `b`: stop where `b` starts, else take one
      more character if it may. */
  lemma ExtendStep(p: Pattern, t: string, j: nat)
    requires |p.atoms| >= 2 && p.atoms[|p.atoms| - 1].Lit?
    requires j <= |t|
    ensures var k := |p.atoms| - 1;
      var b := p.atoms[k].text;
      Extend(p, k, t, j)
      == if LitPrefix(b, t[j..], p.ignoreCase) then Some(j + |b|)
         else if j < |t| && (p.dotAll || t[j] != '\n') then Extend(p, k, t, j + 1)
         else None
  {
    LastLitMatch(p, t[j..]);
  }

  /** The last atom, literal text `b`, matches exactly where `b` starts. */
  lemma LastLitMatch(p: Pattern, u: string)
    requires |p.atoms| >= 1 && p.atoms[|p.atoms| - 1].Lit?
    ensures var b := p.atoms[|p.atoms| - 1].text;
      MatchFrom(p, |p.atoms| - 1, u) == if LitPrefix(b, u, p.ignoreCase) then Some(|b|) else None
  {
    var b := p.atoms[|p.atoms| - 1].text;
    if LitPrefix(b, u, p.ignoreCase) {
      assert MatchFrom(p, |p.atoms|, u[|b|..]) == Some(0);
    }
  }

  lemma LazyBetweenUnfold(a: string, b: string, dotAll: bool, ic: bool, t: string)
    requires a != []
    ensures var p := Pattern([Lit(a), AnyLazy, Lit(b)], dotAll, ic);
      MatchAt(p, t).Some? ==>
        LitPrefix(a, t, ic) && FirstEnd(b, ic, dotAll, t[|a|..], 0) == Some(MatchAt(p, t).value - |a|)
  {
    var p := Pattern([Lit(a), AnyLazy, Lit(b)], dotAll, ic);
    if LitPrefix(a, t, ic) {
      assert MatchFrom(p, 1, t[|a|..]) == Extend(p, 2, t[|a|..], 0);
      ExtendIsFirstEnd(p, t[|a|..], 0);
    }
  }

  /** A pattern `a.*?b` of two literal texts: a match runs from `a` to the first `b`
      after it, and without DOTALL it stays on one line. */
  lemma LazyBetween(a: string, b: string, dotAll: bool, ic: bool, t: string)
    requires a != []
    ensures var p := Pattern([Lit(a), AnyLazy, Lit(b)], dotAll, ic);
      MatchAt(p, t).Some? ==>
        var n := MatchAt(p, t).value;
        && LitPrefix(a, t, ic)
        && |a| + |b| <= n
        && LitPrefix(b, t[n - |b|..], ic)
        && (forall i :: |a| <= i < n - |b| ==> !LitPrefix(b, t[i..], ic))
        && (!dotAll ==> forall i :: |a| <= i < n - |b| ==> t[i] != '\n')
  {
    var p := Pattern([Lit(a), AnyLazy, Lit(b)], dotAll, ic);
    LazyBetweenUnfold(a, b, dotAll, ic, t);
    if MatchAt(p, t).Some? {
      var n := MatchAt(p, t).value;
      FirstEndIsFirst(b, ic, dotAll, t[|a|..], 0);
      FirstAfterShift(b, dotAll, ic, t, |a|, n - |a|);
    }
  }

  /** The first `b` ending at `m` in `t[k..]` is the first `b` ending at `k + m` in `t`. */
  lemma FirstAfterShift(b: string, dotAll: bool, ic: bool, t: string, k: nat, m: nat)
    requires k <= |t|
    requires |b| <= m <= |t| - k
    requires LitPrefix(b, t[k..][m - |b|..], ic)
    requires forall i :: 0 <= i < m - |b| ==> !LitPrefix(b, t[k..][i..], ic)
    requires !dotAll ==> forall i :: 0 <= i < m - |b| ==> t[k..][i] != '\n'
    ensures LitPrefix(b, t[k + m - |b|..], ic)
    ensures forall i :: k <= i < k + m - |b| ==> !LitPrefix(b, t[i..], ic)
    ensures !dotAll ==> forall i :: k <= i < k + m - |b| ==> t[i] != '\n'
  {
    assert t[k + m - |b|..] == t[k..][m - |b|..];
    forall i | k <= i < k + m - |b|
      ensures !LitPrefix(b, t[i..], ic) && (!dotAll ==> t[i] != '\n')
    {
      assert t[i..] == t[k..][i - k..];
      assert t[i] == t[k..][i - k];
    }
  }

  /** What a match is replaced by: fixed text, or (for the template `\1\n<text>` whose
      group 1 is the whole match but its final newline) the match itself followed by
      `text`. */
  datatype Repl = Fixed(text: string) | AfterMatch(text: string)

  function Expand(r: Repl, m: string): string {
    match r
    case Fixed(x) => x
    case AfterMatch(x) => m + x
  }

  /** How many replacements are still allowed. */
  datatype Limit = All | AtMost(n: nat)

  function Next(lim: Limit): Limit {
    match lim
    case All => All
    case AtMost(n) => if n == 0 then AtMost(0) else AtMost(n - 1)
  }

  /** The left-to-right scan of `re.sub`. A match is replaced and the scan goes on after
      it; an empty match is replaced, the character after it is copied, and the scan
      goes on from there; at the end of the text one more (empty) match is tried. */
  function Scan(p: Pattern, t: string, r: Repl, lim: Limit): string
    decreases |t|
  {
    if lim == AtMost(0) then t
    else match MatchAt(p, t)
      case Some(n) =>
        if n > 0 then Expand(r, t[..n]) + Scan(p, t[n..], r, Next(lim))
        else if t == [] then Expand(r, [])
        else Expand(r, []) + [t[0]] + Scan(p, t[1..], r, Next(lim))
      case None =>
        if t == [] then [] else [t[0]] + Scan(p, t[1..], r, lim)
  }

  /** `re.sub(p, r, t, count=count)`; a count of 0 means no limit. */
  function Sub(p: Pattern, r: Repl, t: string, count: nat): string {
    Scan(p, t, r, if count == 0 then All else AtMost(count))
  }

  /** One step of the scan where no match starts. */
  lemma ScanSkip(p: Pattern, t: string, r: Repl, lim: Limit)
    requires lim != AtMost(0) && t != [] && MatchAt(p, t).None?
    ensures Scan(p, t, r, lim) == [t[0]] + Scan(p, t[1..], r, lim)
  {
  }

  /** One step of the scan where a match starts. */
  lemma ScanHit(p: Pattern, t: string, r: Repl, lim: Limit)
    requires Consuming(p) && lim != AtMost(0) && MatchAt(p, t).Some?
    ensures Scan(p, t, r, lim)
         == Expand(r, t[..MatchAt(p, t).value]) + Scan(p, t[MatchAt(p, t).value..], r, Next(lim))
  {
  }

  /** `re.sub` is repeated `re.search`: the text before the leftmost match is copied,
      the match is replaced, and the scan goes on after the match. */
  lemma {:induction false} ScanAtSearch(p: Pattern, t: string, r: Repl, lim: Limit,
                                        i: nat, n: nat)
    requires Consuming(p) && lim != AtMost(0) && Search(p, t) == Some((i, n))
    ensures i + n <= |t|
    ensures Scan(p, t, r, lim) == t[..i] + Expand(r, t[i..i + n]) + Scan(p, t[i + n..], r, Next(lim))
    decreases |t|, 1
  {
    SearchStep(p, t, i, n);
    if MatchAt(p, t).Some? {
      ScanAtSearchHit(p, t, r, lim, i, n);
    } else {
      ScanAtSearchSkip(p, t, r, lim, i, n);
    }
  }

  /** One step of `re.search`: a match at the start is the one reported, and otherwise
      the search goes on from the next character. */
  lemma SearchStep(p: Pattern, t: string, i: nat, n: nat)
    requires Search(p, t) == Some((i, n))
    ensures i + n <= |t|
    ensures MatchAt(p, t).Some? ==> i == 0 && MatchAt(p, t) == Some(n)
    ensures MatchAt(p, t).None? ==> t != [] && 1 <= i && Search(p, t[1..]) == Some((i - 1, n))
  {
  }

  /** `ScanAtSearch` where the leftmost match starts the text. */
  lemma ScanAtSearchHit(p: Pattern, t: string, r: Repl, lim: Limit, i: nat, n: nat)
    requires Consuming(p) && lim != AtMost(0) && MatchAt(p, t) == Some(n) && i == 0
    ensures i + n <= |t|
    ensures Scan(p, t, r, lim) == t[..i] + Expand(r, t[i..i + n]) + Scan(p, t[i + n..], r, Next(lim))
  {
    ScanHit(p, t, r, lim);
    var e := Expand(r, t[..n]);
    var rest := Scan(p, t[n..], r, Next(lim));
    assert t[i..i + n] == t[..n] && t[i + n..] == t[n..];
    EmptyFront(t[..i], e, rest);
  }

  lemma EmptyFront(z: string, e: string, rest: string)
    requires z == []
    ensures z + e + rest == e + rest
  {
  }

  /** `ScanAtSearch` where the first character is copied. */
  lemma {:induction false} ScanAtSearchSkip(p: Pattern, t: string, r: Repl, lim: Limit,
                                            i: nat, n: nat)
    requires Consuming(p) && lim != AtMost(0) && t != [] && MatchAt(p, t).None?
    requires 1 <= i && i + n <= |t| && Search(p, t[1..]) == Some((i - 1, n))
    ensures Scan(p, t, r, lim) == t[..i] + Expand(r, t[i..i + n]) + Scan(p, t[i + n..], r, Next(lim))
    decreases |t|, 0
  {
    ScanSkip(p, t, r, lim);
    var u, j := t[1..], i - 1;
    ScanAtSearch(p, u, r, lim, j, n);
    ShiftSlices(t, i, j, n);
    PrefixCons(t, i, j, Expand(r, t[i..i + n]), Scan(p, t[i + n..], r, Next(lim)),
               Scan(p, u, r, lim), Scan(p, t, r, lim));
  }

  /** Putting `t[0]` back in front of the layout of the scan of `t[1..]`. */
  lemma PrefixCons(t: string, i: nat, j: nat, m: string, rest: string, v: string, w: string)
    requires j + 1 == i <= |t| && v == t[1..][..j] + m + rest && w == [t[0]] + v
    ensures w == t[..i] + m + rest
  {
    assert t[..i] == [t[0]] + t[1..][..j];
  }

  /** Slices of `t[1..]` from `j` are the slices of `t` one place further on. */
  lemma ShiftSlices(t: string, i: nat, j: nat, n: nat)
    requires j + 1 == i && i + n <= |t|
    ensures t[i..i + n] == t[1..][j..j + n]
    ensures t[i + n..] == t[1..][j + n..]
  {
    assert t[1..][j..j + n] == t[i..i + n];
  }

  /** With no match anywhere the scan copies its input. */
  lemma {:induction false} ScanNoMatch(p: Pattern, t: string, r: Repl, lim: Limit)
    requires Search(p, t).None?
    ensures Scan(p, t, r, lim) == t
    decreases |t|
  {
    if lim != AtMost(0) && t != [] {
      ScanNoMatch(p, t[1..], r, lim);
    }
  }

  /** Absence is a silent no-op: when the pattern matches nowhere, `re.sub` returns its
      input. */
  lemma NoMatchUnchanged(p: Pattern, r: Repl, t: string, count: nat)
    requires Search(p, t).None?
    ensures Sub(p, r, t, count) == t
  {
    ScanNoMatch(p, t, r, if count == 0 then All else AtMost(count));
  }

  /** A deletion (empty fixed replacement) never makes the text longer, and makes it
      shorter exactly when a replacement is allowed and the pattern matches somewhere. */
  lemma {:induction false} DeletionShrinks(p: Pattern, t: string, lim: Limit)
    requires Consuming(p)
    ensures |Scan(p, t, Fixed([]), lim)| <= |t|
    ensures |Scan(p, t, Fixed([]), lim)| < |t| <==> lim != AtMost(0) && Search(p, t).Some?
    decreases |t|
  {
    if lim == AtMost(0) || t == [] {
    } else if MatchAt(p, t).Some? {
      DeletionShrinks(p, t[MatchAt(p, t).value..], Next(lim));
    } else {
      DeletionShrinks(p, t[1..], lim);
    }
  }

  /** A plain-text pattern without IGNORECASE matches exactly where the text occurs. */
  lemma LiteralMatch(x: string, t: string)
    requires x != []
    ensures MatchAt(LitPattern(x, false), t) == if x <= t then Some(|x|) else None
  {
    var p := LitPattern(x, false);
    if LitPrefix(x, t, false) {
      assert MatchFrom(p, 1, t[|x|..]) == Some(0);
    }
  }

  /** A plain-text pattern, under either case setting, matches exactly its own length
      where its text starts the input. */
  lemma LiteralMatchAt(x: string, ic: bool, t: string)
    requires x != []
    ensures MatchAt(LitPattern(x, ic), t) == if LitPrefix(x, t, ic) then Some(|x|) else None
  {
    var p := LitPattern(x, ic);
    if LitPrefix(x, t, ic) {
      assert MatchFrom(p, 1, t[|x|..]) == Some(0);
    }
  }

  /** Text shorter than a plain-text pattern holds no match of it. */
  lemma {:induction false} ScanShort(x: string, ic: bool, t: string, r: Repl, lim: Limit)
    requires x != [] && |t| < |x|
    ensures Scan(LitPattern(x, ic), t, r, lim) == t
    decreases |t|
  {
    LiteralMatchAt(x, ic, t);
    if lim != AtMost(0) && t != [] {
      ScanShort(x, ic, t[1..], r, lim);
    }
  }

  /** Text in which a plain-text pattern starts at none of the first `k` positions, and
      which has too few characters after them to hold it, is left unchanged. */
  lemma {:induction false} ScanNoStartBefore(x: string, ic: bool, t: string, r: Repl, k: nat)
    requires x != [] && k <= |t| && |t| < k + |x|
    requires forall j :: 0 <= j < k ==> !LitPrefix(x, t[j..], ic)
    ensures Scan(LitPattern(x, ic), t, r, All) == t
    decreases k
  {
    if k == 0 {
      ScanShort(x, ic, t, r, All);
    } else {
      assert t[0..] == t;
      LiteralMatchAt(x, ic, t);
      forall j | 0 <= j < k - 1
        ensures !LitPrefix(x, t[1..][j..], ic)
      {
        assert t[1..][j..] == t[j + 1..];
      }
      ScanNoStartBefore(x, ic, t[1..], r, k - 1);
      ScanSkip(LitPattern(x, ic), t, r, All);
      assert [t[0]] + t[1..] == t;
    }
  }

  /** Text that is exactly one match of a plain-text pattern is replaced as a whole. */
  lemma ScanWhole(x: string, ic: bool, t: string, r: Repl)
    requires x != [] && |t| == |x| && LitPrefix(x, t, ic)
    ensures Scan(LitPattern(x, ic), t, r, All) == Expand(r, t)
  {
    LiteralMatchAt(x, ic, t);
    ScanHit(LitPattern(x, ic), t, r, All);
    assert t[..|x|] == t;
    ScanShort(x, ic, t[|x|..], r, All);
    assert t[|x|..] == [];
  }

  /** `re.sub` with a plain-text pattern is `str.replace`, with and without a count. */
  lemma {:induction false} LiteralSubIsReplace(x: string, rep: string, t: string, lim: Limit)
    requires x != []
    ensures Scan(LitPattern(x, false), t, Fixed(rep), lim)
         == match lim
            case All => Literal.ReplaceAll(t, x, rep)
            case AtMost(n) => Literal.ReplaceFirst(t, x, rep, n)
    decreases |t|, 1
  {
    LiteralMatch(x, t);
    if lim == AtMost(0) || t == [] {
    } else if x <= t {
      LiteralSubHit(x, rep, t, lim);
    } else {
      LiteralSubSkip(x, rep, t, lim);
    }
  }

  /** `LiteralSubIsReplace` where `x` starts the input. */
  lemma {:induction false} LiteralSubHit(x: string, rep: string, t: string, lim: Limit)
    requires x != [] && lim != AtMost(0) && x <= t
    ensures Scan(LitPattern(x, false), t, Fixed(rep), lim)
         == match lim
            case All => Literal.ReplaceAll(t, x, rep)
            case AtMost(n) => Literal.ReplaceFirst(t, x, rep, n)
    decreases |t|, 0
  {
    LiteralMatch(x, t);
    ScanHit(LitPattern(x, false), t, Fixed(rep), lim);
    LiteralSubIsReplace(x, rep, t[|x|..], Next(lim));
  }

  /** `LiteralSubIsReplace` where `x` does not start the input. */
  lemma {:induction false} LiteralSubSkip(x: string, rep: string, t: string, lim: Limit)
    requires x != [] && lim != AtMost(0) && t != [] && !(x <= t)
    ensures Scan(LitPattern(x, false), t, Fixed(rep), lim)
         == match lim
            case All => Literal.ReplaceAll(t, x, rep)
            case AtMost(n) => Literal.ReplaceFirst(t, x, rep, n)
    decreases |t|, 0
  {
    LiteralMatch(x, t);
    ScanSkip(LitPattern(x, false), t, Fixed(rep), lim);
    LiteralSubIsReplace(x, rep, t[1..], lim);
  }

  /** A plain-text pattern is found by `re.search` exactly when Python's `x in t`. */
  lemma {:induction false} LiteralSearch(x: string, t: string)
    requires x != []
    ensures Search(LitPattern(x, false), t).Some? <==> Literal.Contains(t, x)
    decreases |t|
  {
    LiteralMatch(x, t);
    if x <= t {
      assert Literal.OccursAt(t, x, 0);
    } else if t != [] {
      LiteralSearch(x, t[1..]);
      Literal.ContainsTail(t, x);
    }
  }

  /** Literal text `x` at atom `k`, at the start of `x + z`: the match goes on in `z`. */
  lemma LitStep(p: Pattern, k: nat, x: string, z: string)
    requires k < |p.atoms| && p.atoms[k] == Lit(x)
    ensures MatchFrom(p, k, x + z)
         == if MatchFrom(p, k + 1, z).Some? then Some(|x| + MatchFrom(p, k + 1, z).value) else None
  {
    assert (x + z)[..|x|] == x;
    assert (x + z)[|x|..] == z;
  }

  /** A run of whitespace `g` followed by a non-space is a whitespace run of length `|g|`. */
  lemma {:induction false} SpaceRunOf(g: string, z: string)
    requires forall i :: 0 <= i < |g| ==> IsSpace(g[i])
    requires z == [] || !IsSpace(z[0])
    ensures SpaceRun(g + z) == |g|
    decreases |g|
  {
    if g == [] {
      assert g + z == z;
    } else {
      assert (g + z)[1..] == g[1..] + z;
      SpaceRunOf(g[1..], z);
    }
  }

  /** `\s+` at atom `k` before the whole whitespace run `g`: when the rest matches right
      after the run, `\s+` keeps the whole run. */
  lemma SpacesStep(p: Pattern, k: nat, g: string, z: string)
    requires k < |p.atoms| && p.atoms[k] == Spaces
    requires g != [] && forall i :: 0 <= i < |g| ==> IsSpace(g[i])
    requires z == [] || !IsSpace(z[0])
    requires MatchFrom(p, k + 1, z).Some?
    ensures MatchFrom(p, k, g + z) == Some(|g| + MatchFrom(p, k + 1, z).value)
  {
    SpaceRunOf(g, z);
    assert (g + z)[|g|..] == z;
  }

  /** `.*?` before literal text passes over characters that cannot start that text. */
  lemma {:induction false} ExtendPast(p: Pattern, k: nat, t: string, j: nat, m: nat)
    requires k < |p.atoms| && p.atoms[k].Lit? && p.atoms[k].text != [] && !p.ignoreCase
    requires j <= m <= |t|
    requires forall i :: j <= i < m ==> t[i] != p.atoms[k].text[0] && (p.dotAll || t[i] != '\n')
    ensures Extend(p, k, t, j) == Extend(p, k, t, m)
    decreases m - j
  {
    if j < m {
      assert t[j..][0] == t[j];
      assert !LitPrefix(p.atoms[k].text, t[j..], false);
      ExtendPast(p, k, t, j + 1, m);
    }
  }

  /** `\s+` having taken `w` characters succeeds only by leaving the rest of the pattern a
      match after some `v` of them. */
  lemma {:induction false} BackOffSome(p: Pattern, k: nat, t: string, w: nat) returns (v: nat)
    requires k <= |p.atoms| && 1 <= w <= |t| && BackOff(p, k, t, w).Some?
    ensures 1 <= v <= w && MatchFrom(p, k, t[v..]).Some?
    ensures BackOff(p, k, t, w) == Some(v + MatchFrom(p, k, t[v..]).value)
    decreases w
  {
    if MatchFrom(p, k, t[w..]).Some? {
      v := w;
    } else {
      v := BackOffSome(p, k, t, w - 1);
    }
  }

  /** A pattern `a\s+b` of two literal texts, without flags: a match is `a`, a run of `s`
      whitespace characters, then `b`. */
  lemma SpacedPairParts(a: string, b: string, t: string) returns (s: nat)
    requires MatchAt(Pattern([Lit(a), Spaces, Lit(b)], false, false), t).Some?
    ensures a <= t && 1 <= s && |a| + s + |b| <= |t|
    ensures forall i :: |a| <= i < |a| + s ==> IsSpace(t[i])
    ensures b <= t[|a| + s..]
  {
    var p := Pattern([Lit(a), Spaces, Lit(b)], false, false);
    assert LitPrefix(a, t, false);
    var u := t[|a|..];
    assert MatchFrom(p, 1, u).Some?;
    var w := SpaceRun(u);
    assert w >= 1 && BackOff(p, 2, u, w).Some?;
    s := BackOffSome(p, 2, u, w);
    LastLitMatch(p, u[s..]);
    assert u[s..] == t[|a| + s..];
    forall i | |a| <= i < |a| + s
      ensures IsSpace(t[i])
    {
      assert t[i] == u[i - |a|];
    }
  }

  /** When no position of `t` starts a match, `re.search` finds none. */
  lemma NoMatchAnywhere(p: Pattern, t: string)
    requires forall j :: 0 <= j <= |t| ==> MatchAt(p, t[j..]).None?
    ensures Search(p, t).None?
  {
    SearchLeftmost(p, t);
  }

  /** A case-sensitive pattern that starts with literal text `x` matches nowhere in a
      text that lacks one of the characters of `x`. */
  lemma MissingCharNoMatch(p: Pattern, x: string, q: nat, t: string)
    requires p.atoms != [] && p.atoms[0] == Lit(x) && !p.ignoreCase
    requires q < |x| && x[q] !in t
    ensures Search(p, t).None?
  {
    forall j | 0 <= j <= |t|
      ensures MatchAt(p, t[j..]).None?
    {
      assert !LitPrefix(x, t[j..], false) by {
        if |x| <= |t| - j {
          assert t[j..][..|x|][q] == t[j + q];
        }
      }
    }
    NoMatchAnywhere(p, t);
  }

  /** A match at `i` with none before it is what `re.search` reports. */
  lemma LeftmostMatch(p: Pattern, t: string, i: nat, n: nat)
    requires i <= |t| && MatchAt(p, t[i..]) == Some(n)
    requires forall j :: 0 <= j < i ==> MatchAt(p, t[j..]).None?
    ensures Search(p, t) == Some((i, n))
  {
    SearchLeftmost(p, t);
  }

  /** A text whose only match is the whole of its tail `m`: `re.sub` keeps what comes
      before the tail and replaces the tail. */
  lemma SubTail(p: Pattern, x: string, b: string, m: string)
    requires Consuming(p) && MatchAt(p, m) == Some(|m|)
    requires forall j :: 0 <= j < |b| ==> MatchAt(p, (b + m)[j..]).None?
    ensures Sub(p, Fixed(x), b + m, 0) == b + x
  {
    var t := b + m;
    assert t[|b|..] == m;
    LeftmostMatch(p, t, |b|, |m|);
    ScanAtSearch(p, t, Fixed(x), All, |b|, |m|);
    assert t[..|b|] == b;
    assert t[|b| + |m|..] == [];
  }

  /** A match of `a\s+v` in `y + g + v` where `a` and `y` end with the same non-space
      character, `g` is whitespace, and the character of `v` at `q` occurs neither in
      `y + g` nor earlier in `v`: the match's `a` ends exactly where `y` ends. */
  lemma SpacedPairPinned(a: string, y: string, g: string, v: string, q: nat, j: nat)
    requires a != [] && y != [] && a[|a| - 1] == y[|y| - 1] && !IsSpace(y[|y| - 1])
    requires forall i :: 0 <= i < |g| ==> IsSpace(g[i])
    requires q < |v| && v[q] !in y + g && forall i :: 0 <= i < q ==> v[i] != v[q]
    requires j <= |y + g + v|
    requires MatchAt(Pattern([Lit(a), Spaces, Lit(v)], false, false), (y + g + v)[j..]).Some?
    ensures j + |a| == |y| && a <= (y + g + v)[j..]
  {
    var t := y + g + v;
    var k := SpacedPairParts(a, v, t[j..]);
    var e := j + |a|;
    var b := e + k;
    assert t[j..][|a| + k..] == t[b..];
    assert t == (y + g) + v;
    Literal.UniqueAnchor(y + g, v, q, b);
    assert t[e - 1] == t[j..][|a| - 1] == a[|a| - 1];
    forall i | e <= i < b
      ensures IsSpace(t[i])
    {
      assert t[i] == t[j..][i - j];
    }
    forall i | |y| <= i < b
      ensures IsSpace(t[i])
    {
      assert t[i] == g[i - |y|];
    }
    assert t[|y| - 1] == y[|y| - 1];
  }

  /** `.*?` having taken `j` characters succeeds only by leaving the rest of the pattern a
      match after some `v >= j` of them. */
  lemma {:induction false} ExtendSome(p: Pattern, k: nat, t: string, j: nat) returns (v: nat)
    requires k <= |p.atoms| && j <= |t| && Extend(p, k, t, j).Some?
    ensures j <= v <= |t| && MatchFrom(p, k, t[v..]).Some?
    ensures Extend(p, k, t, j) == Some(v + MatchFrom(p, k, t[v..]).value)
    decreases |t| - j
  {
    if MatchFrom(p, k, t[j..]).Some? {
      v := j;
    } else {
      v := ExtendSome(p, k, t, j + 1);
    }
  }

  /** The fewest characters a match of `p.atoms[k..]` can take: its literal text and one
      character for each `\s+`. */
  function MinLength(p: Pattern, k: nat): nat
    requires k <= |p.atoms|
    decreases |p.atoms| - k
  {
    if k == |p.atoms| then 0
    else
      (match p.atoms[k]
       case Lit(x) => |x|
       case Spaces => 1
       case AnyLazy => 0)
      + MinLength(p, k + 1)
  }

  /** Every match takes at least that many characters. */
  lemma {:induction false} MatchAtLeast(p: Pattern, k: nat, t: string)
    requires k <= |p.atoms| && MatchFrom(p, k, t).Some?
    ensures MinLength(p, k) <= MatchFrom(p, k, t).value
    decreases |p.atoms| - k
  {
    if k < |p.atoms| {
      match p.atoms[k]
      case Lit(x) =>
        MatchAtLeast(p, k + 1, t[|x|..]);
      case Spaces =>
        var v := BackOffSome(p, k + 1, t, SpaceRun(t));
        MatchAtLeast(p, k + 1, t[v..]);
      case AnyLazy =>
        var v := ExtendSome(p, k + 1, t, 0);
        MatchAtLeast(p, k + 1, t[v..]);
    }
  }

  /** Text shorter than the shortest match is left alone. */
  lemma ScanTooShort(p: Pattern, t: string, r: Repl, lim: Limit)
    requires |t| < MinLength(p, 0)
    ensures Scan(p, t, r, lim) == t
  {
    forall j | 0 <= j <= |t|
      ensures MatchAt(p, t[j..]).None?
    {
      if MatchAt(p, t[j..]).Some? {
        MatchAtLeast(p, 0, t[j..]);
      }
    }
    NoMatchAnywhere(p, t);
    ScanNoMatch(p, t, r, lim);
  }

  /** `.*?` before the literal `x` passes over `g`, none of whose characters can start
      `x`, and goes on where `x` and the rest after it match. */
  lemma LazyStep(p: Pattern, k: nat, x: string, g: string, z: string)
    requires k + 1 < |p.atoms| && p.atoms[k] == AnyLazy && p.atoms[k + 1] == Lit(x)
    requires x != [] && !p.ignoreCase
    requires forall i :: 0 <= i < |g| ==> g[i] != x[0] && (p.dotAll || g[i] != '\n')
    requires MatchFrom(p, k + 1, x + z).Some?
    ensures MatchFrom(p, k, g + (x + z)) == Some(|g| + MatchFrom(p, k + 1, x + z).value)
  {
    var t := g + (x + z);
    ExtendPast(p, k + 1, t, 0, |g|);
    assert t[|g|..] == x + z;
  }

  /** A literal `x` followed by `.*?` and a literal `y`: `x`, then `g` (none of whose
      characters can start `y`), then the match from `y` on. */
  lemma LitLazyLit(p: Pattern, k: nat, x: string, g: string, y: string, z: string)
    requires k + 2 < |p.atoms| && p.atoms[k] == Lit(x) && p.atoms[k + 1] == AnyLazy
    requires p.atoms[k + 2] == Lit(y) && y != [] && !p.ignoreCase
    requires forall i :: 0 <= i < |g| ==> g[i] != y[0] && (p.dotAll || g[i] != '\n')
    requires MatchFrom(p, k + 2, y + z).Some?
    ensures MatchFrom(p, k, x + (g + (y + z)))
         == Some(|x| + |g| + MatchFrom(p, k + 2, y + z).value)
  {
    LazyStep(p, k + 1, y, g, z);
    LitStep(p, k, x, g + (y + z));
  }

  /** A literal `x`, whitespace `g` and a literal `y` at atoms `k` to `k + 2`, ending the
      pattern, match `x`, `g` and `y` whole. */
  lemma LitSpacesLit(p: Pattern, k: nat, x: string, g: string, y: string, z: string)
    requires k + 3 == |p.atoms| && p.atoms[k] == Lit(x) && p.atoms[k + 1] == Spaces
    requires p.atoms[k + 2] == Lit(y)
    requires g != [] && forall i :: 0 <= i < |g| ==> IsSpace(g[i])
    requires y != [] && !IsSpace(y[0])
    ensures MatchFrom(p, k, x + (g + (y + z))) == Some(|x| + |g| + |y|)
  {
    LitStep(p, k + 2, y, z);
    assert MatchFrom(p, k + 2, y + z) == Some(|y|);
    SpacesStep(p, k + 1, g, y + z);
    assert MatchFrom(p, k + 1, g + (y + z)) == Some(|g| + |y|);
    LitStep(p, k, x, g + (y + z));
  }

  /** The whole of `a`, a run of whitespace, and `v` is a match of `a\s+v`. */
  lemma SpacedPairWhole(a: string, g: string, v: string)
    requires g != [] && forall i :: 0 <= i < |g| ==> IsSpace(g[i])
    requires v != [] && !IsSpace(v[0])
    ensures MatchAt(Pattern([Lit(a), Spaces, Lit(v)], false, false), a + (g + v))
         == Some(|a| + |g| + |v|)
  {
    assert v + [] == v;
    LitSpacesLit(Pattern([Lit(a), Spaces, Lit(v)], false, false), 0, a, g, v, []);
  }
}
