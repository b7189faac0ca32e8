/** Text normalisation with an index map back to the original positions. */
module Normalizer {
  import opened Text
  import opened Variant

  const NO_RUNE: char := 0 as char

  predicate IsCJKSeparator(c: char) {
    c == '-' || c == '_' || c == '*' || c == '·' || c == ' ' || c == '\t'
  }

  /** Neither space nor separator: the characters that decide what a separator stands between. */
  predicate IsCore(u: Unicode, c: char) {
    !IsCJKSeparator(c) && !u.space(c)
  }

  function Cores(u: Unicode, f: string): string {
    if f == [] then [] else (if IsCore(u, f[0]) then [f[0]] else []) + Cores(u, f[1..])
  }

  function FirstOr(s: string, c: char): char {
    if s == [] then c else s[0]
  }

  function LastOr(s: string, c: char): char {
    if s == [] then c else s[|s| - 1]
  }

  /** f[i] is a separator and the nearest core characters on both sides are CJK. */
  predicate Separates(u: Unicode, f: string, i: nat)
    requires i < |f|
  {
    && IsCJKSeparator(f[i])
    && IsCJK(LastOr(Cores(u, f[..i]), NO_RUNE))
    && IsCJK(FirstOr(Cores(u, f[i + 1..]), NO_RUNE))
  }

  // ---------- The pass over folded text ----------

  /** The loop's variables; pending is -1 or the position of the last space since the last rune kept. */
  datatype Pass = Pass(out: string, idx: seq<nat>, pending: int)

  predicate NeedsSpace(p: Pass, c: char) {
    p.pending >= 0 && p.out != [] && !(IsCJK(p.out[|p.out| - 1]) && IsCJK(c))
  }

  function Step(u: Unicode, f: string, p: Pass, i: nat): Pass
    requires i < |f|
  {
    var c := f[i];
    if u.space(c) then p.(pending := i)
    else if Separates(u, f, i) then p
    else if NeedsSpace(p, c) then Pass(p.out + [' ', c], p.idx + [p.pending as nat, i], -1)
    else Pass(p.out + [c], p.idx + [i], -1)
  }

  function Run(u: Unicode, f: string, n: nat): Pass
    requires n <= |f|
  {
    if n == 0 then Pass([], [], -1) else Step(u, f, Run(u, f, n - 1), n - 1)
  }

  // ---------- The code ----------

  datatype Result = Result(original: string, normalized: string, indexMap: seq<nat>)

  /** The nearest core rune before position i, or rune 0. */
  method PreviousCore(u: Unicode, orig: string, i: nat) returns (prev: char)
    requires i < |orig|
    ensures prev == LastOr(Cores(u, FoldAll(u, orig)[..i]), NO_RUNE)
  {
    hide Cores, IsCJKSeparator;
    ghost var f := FoldAll(u, orig);
    prev := NO_RUNE;
    var j: int := i - 1;
    while j >= 0
      invariant -1 <= j < i
      invariant Cores(u, f[..i]) == Cores(u, f[..j + 1])
    {
      CoresSnoc(u, f[..j + 1]);
      assert f[..j + 1][..j] == f[..j];
      var p := Fold(u, orig[j]);
      if IsCJKSeparator(p) || u.space(p) {
        j := j - 1;
        continue;
      }
      return p;
    }
    NoCores(u);
    assert f[..0] == [];
  }

  /** The nearest core rune after position i, or rune 0. */
  method NextCore(u: Unicode, orig: string, i: nat) returns (next: char)
    requires i < |orig|
    ensures next == FirstOr(Cores(u, FoldAll(u, orig)[i + 1..]), NO_RUNE)
  {
    hide IsCJKSeparator;
    ghost var f := FoldAll(u, orig);
    next := NO_RUNE;
    var j := i + 1;
    while j < |orig|
      invariant i + 1 <= j <= |orig|
      invariant Cores(u, f[i + 1..]) == Cores(u, f[j..])
    {
      assert f[j..][1..] == f[j + 1..];
      var n := Fold(u, orig[j]);
      if IsCJKSeparator(n) || u.space(n) {
        j := j + 1;
        continue;
      }
      return n;
    }
  }

  lemma NoCores(u: Unicode)
    ensures Cores(u, []) == []
  {
  }

  method IsSeparatorBetweenCJK(u: Unicode, orig: string, i: nat, r: char) returns (b: bool)
    requires i < |orig| && r == Fold(u, orig[i])
    ensures b == Separates(u, FoldAll(u, orig), i)
  {
    if !IsCJKSeparator(r) {
      return false;
    }
    var prev := PreviousCore(u, orig, i);
    var next := NextCore(u, orig, i);
    b := IsCJK(prev) && IsCJK(next);
  }

  /** What NormalizeWithMap computes after simplification. */
  function NormalForm(u: Unicode, simplified: string): Pass {
    var f := FoldAll(u, simplified);
    Run(u, f, |f|)
  }

  method NormalizeWithMap(u: Unicode, t: Tables, order: seq<Phrase>, s: string) returns (r: Result)
    requires forall p :: p in order ==> p.key != []
    ensures r.original == s
    ensures var p := NormalForm(u, Convert(s, order, t.chars));
            r.normalized == p.out && r.indexMap == p.idx
    ensures exists simplified :: Converted(s, order, t.chars, simplified) && r.normalized == NormalForm(u, simplified).out
  {
    hide Separates, Fold, Convert, Converted;
    var orig := ConvertPhrases(s, order, t.chars);
    ghost var f := FoldAll(u, orig);
    var out: string, idx: seq<nat>, pending: int := [], [], -1;
    for i := 0 to |orig|
      invariant Pass(out, idx, pending) == Run(u, f, i)
    {
      var c := Fold(u, orig[i]);
      if u.space(c) {
        pending := i;
        continue;
      }
      var sep := IsSeparatorBetweenCJK(u, orig, i, c);
      if sep {
        continue;
      }
      if pending >= 0 && |out| > 0 && !(IsCJK(out[|out| - 1]) && IsCJK(c)) {
        out := out + [' '];
        idx := idx + [pending];
      }
      pending := -1;
      out := out + [c];
      idx := idx + [i];
    }
    r := Result(s, out, idx);
  }

  /** The library's tables: characters, phrases and their replacements, the order in which the phrases are
      replaced, and which characters are letters or digits. */
  datatype Library = Library(u: Unicode, tables: Tables, order: seq<Phrase>, word: char -> bool)

  ghost predicate LibraryOK(lib: Library) {
    TablesOK(lib.tables) && OrderOf(lib.order, lib.tables) && forall p :: p in lib.order ==> p.key != []
  }

  function Normalize(u: Unicode, t: Tables, order: seq<Phrase>, s: string): string
    requires forall p :: p in order ==> p.key != []
  {
    NormalForm(u, Convert(s, order, t.chars)).out
  }

  // ---------- Core characters ----------

  lemma CoresCons(u: Unicode, c: char, s: string)
    ensures Cores(u, [c] + s) == (if IsCore(u, c) then [c] else []) + Cores(u, s)
  {
  }

  lemma {:induction false} CoresAppend(u: Unicode, a: string, b: string)
    ensures Cores(u, a + b) == Cores(u, a) + Cores(u, b)
  {
    hide Cores, IsCore;
    if a == [] {
      NoCores(u);
      assert a + b == b;
    } else {
      CoresAppend(u, a[1..], b);
      assert a + b == [a[0]] + (a[1..] + b) && a == [a[0]] + a[1..];
      CoresCons(u, a[0], a[1..] + b);
      CoresCons(u, a[0], a[1..]);
    }
  }

  lemma CoresSnoc(u: Unicode, a: string)
    requires a != []
    ensures Cores(u, a) == Cores(u, a[..|a| - 1]) + if IsCore(u, a[|a| - 1]) then [a[|a| - 1]] else []
  {
    assert a == a[..|a| - 1] + [a[|a| - 1]];
    CoresAppend(u, a[..|a| - 1], [a[|a| - 1]]);
    assert Cores(u, [a[|a| - 1]]) == if IsCore(u, a[|a| - 1]) then [a[|a| - 1]] else [];
  }

  // ---------- Separators between CJK characters ----------

  /** A separator or a space: it does not decide what another one stands between. */
  ghost predicate Thin(u: Unicode, c: char) {
    c in "-_*· \t" || u.space(c)
  }

  /** Going left from i over thin characters, and going right, one gets to a CJK character. */
  ghost predicate BetweenCJK(u: Unicode, f: string, i: nat)
    requires i < |f|
  {
    && (exists j :: 0 <= j < i && IsCJK(f[j]) && forall k :: j < k < i ==> Thin(u, f[k]))
    && (exists j :: i < j < |f| && IsCJK(f[j]) && forall k :: i < k < j ==> Thin(u, f[k]))
  }

  /** The separators that are dropped. */
  lemma SeparatesIff(u: Unicode, f: string, i: nat)
    requires LikeGo(u) && i < |f|
    ensures Separates(u, f, i) <==> f[i] in "-_*· \t" && BetweenCJK(u, f, i)
  {
    hide Cores, IsCJK, Thin, LikeGo;
    ThinIsNotCore(u);
    LastCoreIff(u, f[..i]);
    var after := f[i + 1..];
    FirstCoreIff(u, after);
    if j :| 0 <= j < |after| && IsCJK(after[j]) && forall k :: 0 <= k < j ==> Thin(u, after[k]) {
      assert f[i + 1 + j] == after[j];
      forall k | i < k < i + 1 + j ensures Thin(u, f[k]) { assert f[k] == after[k - i - 1]; }
    }
    if j :| i < j < |f| && IsCJK(f[j]) && forall k :: i < k < j ==> Thin(u, f[k]) {
      assert after[j - i - 1] == f[j];
      forall k | 0 <= k < j - i - 1 ensures Thin(u, after[k]) { assert after[k] == f[k + i + 1]; }
    }
  }

  lemma ThinIsNotCore(u: Unicode)
    requires LikeGo(u)
    ensures forall c :: Thin(u, c) <==> !IsCore(u, c)
    ensures forall c :: IsCJK(c) ==> !Thin(u, c)
    ensures !IsCJK(NO_RUNE)
  {
  }

  lemma {:induction false} LastCoreIff(u: Unicode, s: string)
    requires LikeGo(u)
    ensures IsCJK(LastOr(Cores(u, s), NO_RUNE)) <==>
            exists j :: 0 <= j < |s| && IsCJK(s[j]) && forall k :: j < k < |s| ==> Thin(u, s[k])
  {
    hide Cores, IsCore, IsCJK, Thin, LikeGo;
    ThinIsNotCore(u);
    if s == [] {
      NoCores(u);
    } else {
      var init := s[..|s| - 1];
      LastCoreIff(u, init);
      CoresSnoc(u, s);
      if !IsCore(u, s[|s| - 1]) {
        if j :| 0 <= j < |init| && IsCJK(init[j]) && forall k :: j < k < |init| ==> Thin(u, init[k]) {
          forall k | j < k < |s| ensures Thin(u, s[k]) { assert k < |init| ==> s[k] == init[k]; }
          assert s[j] == init[j];
        }
        if j :| 0 <= j < |s| && IsCJK(s[j]) && forall k :: j < k < |s| ==> Thin(u, s[k]) {
          assert j < |init| && init[j] == s[j];
          forall k | j < k < |init| ensures Thin(u, init[k]) { assert init[k] == s[k]; }
        }
      }
    }
  }

  lemma {:induction false} FirstCoreIff(u: Unicode, s: string)
    requires LikeGo(u)
    ensures IsCJK(FirstOr(Cores(u, s), NO_RUNE)) <==>
            exists j :: 0 <= j < |s| && IsCJK(s[j]) && forall k :: 0 <= k < j ==> Thin(u, s[k])
  {
    hide Cores, IsCore, IsCJK, Thin, LikeGo;
    ThinIsNotCore(u);
    if s == [] {
      NoCores(u);
    } else {
      var rest := s[1..];
      FirstCoreIff(u, rest);
      CoresCons(u, s[0], rest);
      assert s == [s[0]] + rest;
      if !IsCore(u, s[0]) {
        if j :| 0 <= j < |rest| && IsCJK(rest[j]) && forall k :: 0 <= k < j ==> Thin(u, rest[k]) {
          assert s[j + 1] == rest[j];
          forall k | 0 <= k < j + 1 ensures Thin(u, s[k]) { assert k > 0 ==> s[k] == rest[k - 1]; }
        }
        if j :| 0 <= j < |s| && IsCJK(s[j]) && forall k :: 0 <= k < j ==> Thin(u, s[k]) {
          assert j > 0 && rest[j - 1] == s[j];
          forall k | 0 <= k < j - 1 ensures Thin(u, rest[k]) { assert rest[k] == s[k + 1]; }
        }
      }
    }
  }

  /** Without a character that is no core, what stands before and after another stays the same. */
  lemma SeparatesWithout(u: Unicode, a: string, c: char, b: string, i: nat)
    requires !IsCore(u, c) && i < |a + b|
    ensures i < |a| ==> (Separates(u, a + [c] + b, i) <==> Separates(u, a + b, i))
    ensures i >= |a| ==> (Separates(u, a + [c] + b, i + 1) <==> Separates(u, a + b, i))
  {
    hide Cores, IsCore, IsCJK;
    var f, g := a + b, a + [c] + b;
    if i < |a| {
      assert g[..i] == f[..i] && f[i + 1..] == a[i + 1..] + b && g[i + 1..] == a[i + 1..] + ([c] + b);
      CoresAppend(u, a[i + 1..], b);
      CoresAppend(u, a[i + 1..], [c] + b);
      CoresCons(u, c, b);
    } else {
      var k := i - |a|;
      assert f[..i] == a + b[..k] && g[..i + 1] == a + ([c] + b[..k]) && f[i + 1..] == g[i + 2..];
      CoresAppend(u, a, b[..k]);
      CoresAppend(u, a, [c] + b[..k]);
      CoresCons(u, c, b[..k]);
    }
  }

  lemma {:induction false} RunBefore(u: Unicode, a: string, c: char, b: string, n: nat)
    requires !IsCore(u, c) && n <= |a|
    ensures Run(u, a + [c] + b, n) == Run(u, a + b, n)
  {
    hide Separates, IsCore;
    if n > 0 {
      RunBefore(u, a, c, b, n - 1);
      SeparatesWithout(u, a, c, b, n - 1);
      assert (a + [c] + b)[n - 1] == (a + b)[n - 1];
    }
  }

  lemma {:induction false} RunAfter(u: Unicode, a: string, c: char, b: string, n: nat)
    requires !IsCore(u, c) && !u.space(c) && Separates(u, a + [c] + b, |a|) && n <= |b|
    ensures var p, q := Run(u, a + [c] + b, |a| + 1 + n), Run(u, a + b, |a| + n);
            p.out == q.out && (p.pending >= 0 <==> q.pending >= 0)
  {
    hide Separates, IsCore;
    if n == 0 {
      RunBefore(u, a, c, b, |a|);
    } else {
      hide Step;
      RunAfter(u, a, c, b, n - 1);
      SeparatesWithout(u, a, c, b, |a| + n - 1);
      var f, g, i := a + b, a + [c] + b, |a| + n - 1;
      assert g[i + 1] == f[i];
      StepAlike(u, g, Run(u, g, i + 1), i + 1, f, Run(u, f, i), i);
    }
  }

  lemma StepAlike(u: Unicode, g: string, p: Pass, i: nat, f: string, q: Pass, j: nat)
    requires i < |g| && j < |f| && g[i] == f[j] && (Separates(u, g, i) <==> Separates(u, f, j))
    requires p.out == q.out && (p.pending >= 0 <==> q.pending >= 0)
    ensures var p', q' := Step(u, g, p, i), Step(u, f, q, j); p'.out == q'.out && (p'.pending >= 0 <==> q'.pending >= 0)
  {
    hide Separates, IsCJK;
  }

  /** A hyphen, underscore, asterisk or dot between CJK characters, however wide, changes nothing. */
  lemma SeparatorIsDropped(u: Unicode, a: string, c: char, b: string)
    requires LikeGo(u) && Fold(u, c) in "-_*·" && !u.space(Fold(u, c))
    requires BetweenCJK(u, FoldAll(u, a + [c] + b), |a|)
    ensures NormalForm(u, a + [c] + b).out == NormalForm(u, a + b).out
  {
    hide LikeGo, Fold, BetweenCJK, Separates, Run;
    var fa, fc, fb := FoldAll(u, a), Fold(u, c), FoldAll(u, b);
    assert FoldAll(u, a + [c] + b) == fa + [fc] + fb;
    assert FoldAll(u, a + b) == fa + fb;
    SeparatesIff(u, fa + [fc] + fb, |a|);
    RunAfter(u, fa, fc, fb, |fb|);
  }

  // ---------- The index map ----------

  ghost predicate Increasing(idx: seq<nat>) {
    forall i, j :: 0 <= i < j < |idx| ==> idx[i] < idx[j]
  }

  /** The index map is strictly increasing, in range, and as long as the text; each character stands
      for the one it maps to, or is a space that stands for a space. */
  ghost predicate Mapped(u: Unicode, f: string, n: nat, p: Pass)
    requires n <= |f|
  {
    && |p.idx| == |p.out| && Increasing(p.idx)
    && (forall k :: 0 <= k < |p.idx| ==> p.idx[k] < n)
    && (forall k :: 0 <= k < |p.idx| ==>
                      p.out[k] == f[p.idx[k]] || (p.out[k] == ' ' && u.space(f[p.idx[k]])))
    && -1 <= p.pending < n
    && (p.pending >= 0 ==> u.space(f[p.pending]))
    && (p.pending >= 0 ==> forall k :: 0 <= k < |p.idx| ==> p.idx[k] < p.pending)
  }

  lemma MappedGrows(u: Unicode, f: string, i: nat, p: Pass)
    requires i < |f| && Mapped(u, f, i, p)
    ensures Mapped(u, f, i + 1, Pass(p.out + [f[i]], p.idx + [i], -1))
    ensures p.pending >= 0 ==> Mapped(u, f, i + 1, Pass(p.out + [' ', f[i]], p.idx + [p.pending as nat, i], -1))
    ensures Mapped(u, f, i + 1, p)
    ensures u.space(f[i]) ==> Mapped(u, f, i + 1, p.(pending := i))
  {
  }

  lemma NothingMapped(u: Unicode, f: string)
    ensures Mapped(u, f, 0, Pass([], [], -1))
  {
  }

  lemma {:induction false} RunMapped(u: Unicode, f: string, n: nat)
    requires n <= |f|
    ensures Mapped(u, f, n, Run(u, f, n))
  {
    hide Separates, IsCJK, Mapped;
    if n == 0 {
      NothingMapped(u, f);
    } else {
      RunMapped(u, f, n - 1);
      var p := Run(u, f, n - 1);
      MappedGrows(u, f, n - 1, p);
    }
  }

  /** Every character that is neither a space nor a separator between CJK characters is kept. */
  lemma {:induction false} RunKeeps(u: Unicode, f: string, n: nat, i: nat)
    requires i < n <= |f| && !u.space(f[i]) && !Separates(u, f, i)
    ensures exists k :: 0 <= k < |Run(u, f, n).idx| == |Run(u, f, n).out| && Run(u, f, n).idx[k] == i && Run(u, f, n).out[k] == f[i]
  {
    hide Separates, IsCJK;
    RunMapped(u, f, n);
    RunMapped(u, f, n - 1);
    var p, q := Run(u, f, n - 1), Run(u, f, n);
    if i == n - 1 {
      assert q.idx[|q.idx| - 1] == i;
    } else {
      RunKeeps(u, f, n - 1, i);
      var k :| 0 <= k < |p.idx| && p.idx[k] == i && p.out[k] == f[i];
      assert q.idx[k] == i;
    }
  }

  // ---------- Idempotence ----------

  /** Spaces are single, blank and inner, never between two CJK characters; nothing else is to be
      dropped. */
  ghost predicate TidyAt(u: Unicode, g: string, k: nat)
    requires k < |g|
  {
    if u.space(g[k]) then
      && g[k] == ' ' && 0 < k < |g| - 1
      && !u.space(g[k - 1]) && !u.space(g[k + 1])
      && !(IsCJK(g[k - 1]) && IsCJK(g[k + 1]))
    else !Separates(u, g, k)
  }

  ghost predicate Tidy(u: Unicode, g: string) {
    forall k :: 0 <= k < |g| ==> TidyAt(u, g, k)
  }

  /** On tidy text the pass changes nothing. */
  lemma {:induction false} TidyRun(u: Unicode, g: string, n: nat)
    requires Tidy(u, g) && n <= |g|
    ensures var p := Run(u, g, n);
            var m := if n > 0 && u.space(g[n - 1]) then n - 1 else n;
            && p.out == g[..m] && |p.idx| == m && (forall k :: 0 <= k < m ==> p.idx[k] == k)
            && p.pending == if m < n then m else -1
  {
    hide Separates;
    if n > 0 {
      TidyRun(u, g, n - 1);
      assert TidyAt(u, g, n - 1) && (n > 1 ==> TidyAt(u, g, n - 2));
      if n > 1 && u.space(g[n - 2]) {
        assert g[..n] == g[..n - 2] + [' ', g[n - 1]];
      } else if !u.space(g[n - 1]) {
        assert g[..n] == g[..n - 1] + [g[n - 1]];
      }
    }
  }

  ghost predicate SpacesTidy(u: Unicode, out: string) {
    forall k :: 0 <= k < |out| && u.space(out[k]) ==>
                  && out[k] == ' ' && 0 < k < |out| - 1
                  && !u.space(out[k - 1]) && !u.space(out[k + 1])
                  && !(IsCJK(out[k - 1]) && IsCJK(out[k + 1]))
  }

  /** Kept characters were no separators, and stand where they stood among the core characters. */
  ghost predicate Placed(u: Unicode, f: string, n: nat, out: string, idx: seq<nat>)
    requires n <= |f|
  {
    && |idx| == |out|
    && forall k :: 0 <= k < |out| && !u.space(out[k]) ==>
                     && idx[k] < n && out[k] == f[idx[k]] && !Separates(u, f, idx[k])
                     && Cores(u, out[..k]) == Cores(u, f[..idx[k]])
  }

  ghost predicate Shape(u: Unicode, f: string, n: nat, p: Pass)
    requires n <= |f|
  {
    SpacesTidy(u, p.out) && Placed(u, f, n, p.out, p.idx) && Cores(u, p.out) == Cores(u, f[..n])
  }

  lemma DroppedIsNotCore(u: Unicode, f: string, i: nat)
    requires i < |f| && (u.space(f[i]) || IsCJKSeparator(f[i]))
    ensures Cores(u, f[..i + 1]) == Cores(u, f[..i])
  {
    CoresSnoc(u, f[..i + 1]);
    assert f[..i + 1][..i] == f[..i];
  }

  lemma KeptExtends(u: Unicode, f: string, i: nat, out: string)
    requires LikeGo(u)
    requires i < |f| && Cores(u, out) == Cores(u, f[..i])
    ensures Cores(u, out + [f[i]]) == Cores(u, f[..i + 1])
    ensures Cores(u, out + [' ']) == Cores(u, f[..i])
    ensures Cores(u, out + [' ', f[i]]) == Cores(u, f[..i + 1])
  {
    var c := f[i];
    assert f[..i + 1] == f[..i] + [c];
    CoresAppend(u, f[..i], [c]);
    CoresAppend(u, out, [c]);
    CoresAppend(u, out, [' ']);
    assert Cores(u, [' ']) == [];
    assert out + [' ', c] == (out + [' ']) + [c];
    CoresAppend(u, out + [' '], [c]);
  }

  lemma {:induction false} RunShape(u: Unicode, f: string, n: nat)
    requires LikeGo(u) && n <= |f|
    ensures Shape(u, f, n, Run(u, f, n))
  {
    hide LikeGo, Step, Cores;
    if n == 0 {
      assert f[..0] == [];
    } else {
      RunShape(u, f, n - 1);
      StepShape(u, f, n - 1, Run(u, f, n - 1));
    }
  }

  lemma StepShape(u: Unicode, f: string, i: nat, p: Pass)
    requires LikeGo(u) && i < |f| && Shape(u, f, i, p)
    ensures Shape(u, f, i + 1, Step(u, f, p, i))
  {
    hide LikeGo, Shape, Cores;
    if u.space(f[i]) || Separates(u, f, i) {
      DroppedIsNotCore(u, f, i);
      ShapeStays(u, f, i, p, Step(u, f, p, i));
    } else {
      ShapeCores(u, f, i, p);
      KeptExtends(u, f, i, p.out);
      SpaceIsSpace(u);
      if NeedsSpace(p, f[i]) {
        ShapeGrowsSpaced(u, f, i, p);
      } else {
        ShapeGrows(u, f, i, p);
      }
    }
  }

  lemma ShapeStays(u: Unicode, f: string, i: nat, p: Pass, q: Pass)
    requires i < |f| && Shape(u, f, i, p) && q.out == p.out && q.idx == p.idx
    requires Cores(u, f[..i + 1]) == Cores(u, f[..i])
    ensures Shape(u, f, i + 1, q)
  {
  }

  lemma ShapeCores(u: Unicode, f: string, i: nat, p: Pass)
    requires i <= |f| && Shape(u, f, i, p)
    ensures Cores(u, p.out) == Cores(u, f[..i])
  {
  }

  lemma ShapeGrows(u: Unicode, f: string, i: nat, p: Pass)
    requires i < |f| && !u.space(f[i]) && !Separates(u, f, i) && Shape(u, f, i, p)
    requires Cores(u, p.out) == Cores(u, f[..i]) && Cores(u, p.out + [f[i]]) == Cores(u, f[..i + 1])
    ensures Shape(u, f, i + 1, Pass(p.out + [f[i]], p.idx + [i], -1))
  {
    hide Cores, Separates, Placed, SpacesTidy;
    assert p.out + [] + [f[i]] == p.out + [f[i]] && p.idx + [] + [i] == p.idx + [i];
    assert p.out + [] == p.out;
    PlacedGrows(u, f, i, p.out, p.idx, [], []);
    SpacesGrow(u, p.out, f[i]);
  }

  lemma ShapeGrowsSpaced(u: Unicode, f: string, i: nat, p: Pass)
    requires i < |f| && !u.space(f[i]) && !Separates(u, f, i) && Shape(u, f, i, p)
    requires u.space(' ') && NeedsSpace(p, f[i])
    requires Cores(u, p.out + [' ']) == Cores(u, f[..i]) && Cores(u, p.out + [' ', f[i]]) == Cores(u, f[..i + 1])
    ensures Shape(u, f, i + 1, Pass(p.out + [' ', f[i]], p.idx + [p.pending as nat, i], -1))
  {
    hide Cores, Separates, Placed, SpacesTidy;
    var at := p.pending as nat;
    assert p.out + [' '] + [f[i]] == p.out + [' ', f[i]] && p.idx + [at] + [i] == p.idx + [at, i];
    PlacedGrows(u, f, i, p.out, p.idx, [' '], [at]);
    SpacesGrowSpaced(u, p.out, f[i]);
  }

  lemma PlacedGrows(u: Unicode, f: string, i: nat, out: string, idx: seq<nat>, mid: string, midIdx: seq<nat>)
    requires i < |f| && !u.space(f[i]) && !Separates(u, f, i) && Placed(u, f, i, out, idx)
    requires |mid| == |midIdx| && forall k :: 0 <= k < |mid| ==> u.space(mid[k])
    requires Cores(u, out + mid) == Cores(u, f[..i])
    ensures Placed(u, f, i + 1, out + mid + [f[i]], idx + midIdx + [i])
  {
    hide Cores, Separates;
    var out', idx', m := out + mid + [f[i]], idx + midIdx + [i], |out|;
    assert forall k :: m <= k < m + |mid| ==> out'[k] == mid[k - m];
    forall k | 0 <= k < |out'| && !u.space(out'[k])
      ensures idx'[k] < i + 1 && out'[k] == f[idx'[k]] && !Separates(u, f, idx'[k])
      ensures Cores(u, out'[..k]) == Cores(u, f[..idx'[k]])
    {
      if k < m {
        assert out'[k] == out[k] && idx'[k] == idx[k] && out'[..k] == out[..k];
      } else {
        assert out'[..k] == out + mid;
      }
    }
  }

  lemma SpacesGrow(u: Unicode, out: string, c: char)
    requires SpacesTidy(u, out) && !u.space(c)
    ensures SpacesTidy(u, out + [c])
  {
  }

  lemma SpacesGrowSpaced(u: Unicode, out: string, c: char)
    requires SpacesTidy(u, out) && !u.space(c) && out != [] && !(IsCJK(out[|out| - 1]) && IsCJK(c))
    ensures SpacesTidy(u, out + [' ', c])
  {
    hide IsCJK;
    assert !u.space(out[|out| - 1]);
  }

  lemma SpaceIsSpace(u: Unicode)
    requires LikeGo(u)
    ensures u.space(' ') && u.lower(' ') == ' '
  {
  }

  lemma Split(u: Unicode, s: string, k: nat)
    requires k < |s|
    ensures Cores(u, s) == Cores(u, s[..k]) + (if IsCore(u, s[k]) then [s[k]] else []) + Cores(u, s[k + 1..])
  {
    assert s == s[..k] + s[k..];
    CoresAppend(u, s[..k], s[k..]);
    assert s[k..][1..] == s[k + 1..];
  }

  lemma Cancel(a: string, b: string, c: string)
    requires a + b == a + c
    ensures b == c
  {
    assert b == (a + b)[|a|..] && c == (a + c)[|a|..];
  }

  /** Separators that were kept still do not separate CJK characters. */
  lemma KeptIsTidy(u: Unicode, f: string, p: Pass, k: nat)
    requires Shape(u, f, |f|, p) && k < |p.out|
    ensures TidyAt(u, p.out, k)
  {
    hide Cores, IsCJK;
    if !u.space(p.out[k]) {
      var i := p.idx[k];
      assert f[..|f|] == f;
      Split(u, p.out, k);
      Split(u, f, i);
      Cancel(Cores(u, p.out[..k]) + (if IsCore(u, f[i]) then [f[i]] else []), Cores(u, p.out[k + 1..]), Cores(u, f[i + 1..]));
    }
  }

  lemma RunTidy(u: Unicode, f: string)
    requires LikeGo(u)
    ensures Tidy(u, Run(u, f, |f|).out)
  {
    hide LikeGo, Run, Shape, TidyAt;
    RunShape(u, f, |f|);
    forall k | 0 <= k < |Run(u, f, |f|).out| ensures TidyAt(u, Run(u, f, |f|).out, k) {
      KeptIsTidy(u, f, Run(u, f, |f|), k);
    }
  }

  /** What normalisation produces is plain and folded already. */
  lemma OutputIsPlainAndFolded(u: Unicode, t: Tables, simplified: string)
    requires LikeGo(u) && TablesOK(t) && Plain(t, simplified)
    ensures var g := NormalForm(u, simplified).out; Plain(t, g) && FoldAll(u, g) == g
  {
    var f := FoldAll(u, simplified);
    var p := Run(u, f, |f|);
    RunMapped(u, f, |f|);
    forall k | 0 <= k < |p.out| ensures Fold(u, p.out[k]) == p.out[k] && !Changes(t, p.out[k]) {
      SpaceIsSpace(u);
      var c := simplified[p.idx[k]];
      assert c in simplified;
      FoldIdempotent(u, c);
      FoldIdempotent(u, ' ');
    }
    assert FoldAll(u, p.out) == p.out;
  }

  /** Normalising twice is normalising once, and the second time every position maps to itself. */
  lemma NormalizeIdempotent(u: Unicode, t: Tables, order: seq<Phrase>, order': seq<Phrase>, s: string)
    requires LikeGo(u) && TablesOK(t) && OrderOf(order, t) && OrderOf(order', t)
    ensures forall p :: p in order ==> p.key != []
    ensures forall p :: p in order' ==> p.key != []
    ensures var g := Normalize(u, t, order, s);
            && Normalize(u, t, order', g) == g
            && NormalForm(u, Convert(g, order', t.chars)).idx == seq(|g|, i requires 0 <= i < |g| => i)
  {
    hide LikeGo, OrderOf, Tidy, TablesOK, Convert, Plain;
    OrderOK(order, t);
    OrderOK(order', t);
    var simplified := Convert(s, order, t.chars);
    ConvertPlain(s, order, t);
    OutputIsPlainAndFolded(u, t, simplified);
    var g := NormalForm(u, simplified).out;
    ConvertFixpoint(g, order', t);
    RunTidy(u, FoldAll(u, simplified));
    TidyIsFixed(u, g);
  }

  /** Text that is folded and tidy stays as it is. */
  lemma TidyIsFixed(u: Unicode, g: string)
    requires FoldAll(u, g) == g && Tidy(u, g)
    ensures NormalForm(u, g).out == g && NormalForm(u, g).idx == seq(|g|, i requires 0 <= i < |g| => i)
  {
    hide Run, FoldAll, Separates;
    TidyRun(u, g, |g|);
    assert g[..|g|] == g;
    assert g != [] ==> TidyAt(u, g, |g| - 1);
  }

  /** Simplifying first makes no difference, so a keyword and its simplified form give one pattern. */
  lemma NormalizeOfSimplified(u: Unicode, t: Tables, order: seq<Phrase>, order': seq<Phrase>, s: string)
    requires TablesOK(t) && OrderOf(order, t) && OrderOf(order', t)
    ensures forall p :: p in order ==> p.key != []
    ensures forall p :: p in order' ==> p.key != []
    ensures Normalize(u, t, order', Convert(s, order, t.chars)) == Normalize(u, t, order, s)
  {
    ConvertIdempotent(s, order, order', t);
  }

  // ---------- Mapping a range back ----------

  /** What NormalizeWithMap returns for some text. */
  ghost predicate ResultOf(u: Unicode, t: Tables, order: seq<Phrase>, r: Result) {
    && OrderOf(order, t)
    && (forall p :: p in order ==> p.key != [])
    && (var p := NormalForm(u, Convert(r.original, order, t.chars));
        r.normalized == p.out && r.indexMap == p.idx)
  }

  function MapRange(n: Result, start: int, end: int): (int, int, bool) {
    if start < 0 || end <= start || |n.indexMap| == 0 then (start, end, true)
    else if start >= |n.indexMap| then (|n.original|, |n.original|, true)
    else
      var end := if end - 1 >= |n.indexMap| then |n.indexMap| else end;
      var s := n.indexMap[start] as int;
      var e := n.indexMap[end - 1] + 1;
      (s, e, end - start != e - s)
  }

  ghost predicate GoodMap(idx: seq<nat>, originalLength: nat) {
    Increasing(idx) && forall k :: 0 <= k < |idx| ==> idx[k] < originalLength
  }

  lemma ResultHasGoodMap(u: Unicode, t: Tables, order: seq<Phrase>, r: Result)
    requires TablesOK(t) && ResultOf(u, t, order, r)
    ensures GoodMap(r.indexMap, |r.original|) && |r.indexMap| == |r.normalized|
  {
    ConvertLength(r.original, order, t);
    var f := FoldAll(u, Convert(r.original, order, t.chars));
    RunMapped(u, f, |f|);
  }

  lemma {:induction false} IncreasingGap(idx: seq<nat>, i: nat, j: nat)
    requires Increasing(idx) && i <= j < |idx|
    ensures idx[j] - idx[i] >= j - i
    ensures idx[j] - idx[i] == j - i ==> forall k :: i <= k <= j ==> idx[k] == idx[i] + (k - i)
    decreases j
  {
    if i < j {
      IncreasingGap(idx, i, j - 1);
    }
  }

  /** A hit inside the normalised text maps to a non-empty range of the original, and is reported as
      exact if and only if the original characters behind it are contiguous. */
  lemma MapRangeCorrect(n: Result, start: int, end: int)
    requires GoodMap(n.indexMap, |n.original|)
    requires 0 <= start < end <= |n.indexMap|
    ensures var (s, e, approximate) := MapRange(n, start, end);
            && 0 <= s < e <= |n.original| && s == n.indexMap[start] && e - 1 == n.indexMap[end - 1]
            && (forall k :: start <= k < end ==> s <= n.indexMap[k] < e)
            && (!approximate <==> forall k :: start <= k < end ==> n.indexMap[k] == s + (k - start))
  {
    IncreasingGap(n.indexMap, start, end - 1);
  }

  /** A range that ends behind the text is cut off at its end, and one that starts there is an empty place
      at the end of the original; a range that is none stays as it is. */
  lemma MapRangeOutside(n: Result, start: int, end: int)
    requires n.indexMap != []
    ensures 0 <= start < |n.indexMap| < end ==>
              var (s, e, approximate) := MapRange(n, start, |n.indexMap|);
              MapRange(n, start, end) == (s, e, approximate)
    ensures |n.indexMap| <= start < end ==> MapRange(n, start, end) == (|n.original|, |n.original|, true)
    ensures start < 0 || end <= start ==> MapRange(n, start, end) == (start, end, true)
  {
  }
}
