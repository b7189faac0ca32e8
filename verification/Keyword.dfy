/** The keyword matcher: every keyword's variants, normalised, in one automaton. */
module Keyword {
  import opened Ordering
  import opened AhoSpec
  import opened Aho
  import opened Text
  import opened Variant
  import opened Normalizer

  /** notes and rest stand for the other fields of a rule, those that explain a hit and all others. */
  datatype KeywordRule = KeywordRule(
    id: string, keywords: seq<string>, action: string, level: string, score: int, notes: string, rest: string)

  /** variants is TraditionalSimplifiedVariants, and carry packs the other fields of a hit, for a rule, a
      keyword and a pattern. */
  datatype Setup = Setup(lib: Library, variants: string -> seq<string>, carry: (KeywordRule, string, string) -> string)

  /** risk.Score. */
  function RuleScore(level: string, override: int): int {
    if override > 0 then override else if level == "high" then 90 else if level == "low" then 30 else 60
  }

  function NormalOf(setup: Setup, s: string): string
    requires forall p :: p in setup.lib.order ==> p.key != []
  {
    Normalize(setup.lib.u, setup.lib.tables, setup.lib.order, s)
  }

  function PayloadOf(setup: Setup, r: KeywordRule, kw: string, pat: string): Payload {
    Payload(r.id, kw, RuleScore(r.level, r.score), r.action, r.notes, setup.carry(r, kw, pat))
  }

  /** The different non-empty patterns of the first n candidates. */
  function PatternsFor(setup: Setup, cs: seq<string>, n: nat): seq<string>
    requires n <= |cs| && forall p :: p in setup.lib.order ==> p.key != []
  {
    if n == 0 then []
    else
      var ps, p := PatternsFor(setup, cs, n - 1), NormalOf(setup, cs[n - 1]);
      if p == "" || p in ps then ps else ps + [p]
  }

  function OutsFor(setup: Setup, r: KeywordRule, kw: string, ps: seq<string>): seq<Out> {
    seq(|ps|, i requires 0 <= i < |ps| => Out(ps[i], PayloadOf(setup, r, kw, ps[i])))
  }

  function KeywordOuts(setup: Setup, r: KeywordRule, n: nat): seq<Out>
    requires n <= |r.keywords| && forall p :: p in setup.lib.order ==> p.key != []
  {
    if n == 0 then []
    else
      var kw := r.keywords[n - 1]; var cs := setup.variants(kw);
      KeywordOuts(setup, r, n - 1) + OutsFor(setup, r, kw, PatternsFor(setup, cs, |cs|))
  }

  /** All patterns of all keywords of all rules. */
  function RuleOuts(setup: Setup, rs: seq<KeywordRule>): seq<Out>
    requires forall p :: p in setup.lib.order ==> p.key != []
  {
    if rs == [] then [] else RuleOuts(setup, rs[..|rs| - 1]) + KeywordOuts(setup, rs[|rs| - 1], |rs[|rs| - 1].keywords|)
  }

  // ---------- What the patterns are ----------

  lemma {:induction false} PatternsForExact(setup: Setup, cs: seq<string>, n: nat, p: string)
    requires n <= |cs| && forall q :: q in setup.lib.order ==> q.key != []
    ensures p in PatternsFor(setup, cs, n) <==> p != "" && exists i :: 0 <= i < n && NormalOf(setup, cs[i]) == p
    ensures NoDuplicates(PatternsFor(setup, cs, n))
  {
    hide NormalOf;
    if n > 0 {
      PatternsForExact(setup, cs, n - 1, p);
    }
  }

  /** p is a pattern of the keyword kw. */
  ghost predicate IsPattern(setup: Setup, kw: string, p: string)
    requires forall q :: q in setup.lib.order ==> q.key != []
  {
    p != "" && exists i :: 0 <= i < |setup.variants(kw)| && NormalOf(setup, setup.variants(kw)[i]) == p
  }

  lemma OutsForExact(setup: Setup, r: KeywordRule, kw: string, ps: seq<string>, o: Out)
    ensures o in OutsFor(setup, r, kw, ps) <==> o.pat in ps && o.payload == PayloadOf(setup, r, kw, o.pat)
  {
    hide PayloadOf;
    if o.pat in ps && o.payload == PayloadOf(setup, r, kw, o.pat) {
      var i :| 0 <= i < |ps| && ps[i] == o.pat;
      assert OutsFor(setup, r, kw, ps)[i] == o;
    }
  }

  lemma {:induction false} KeywordOutsExact(setup: Setup, r: KeywordRule, n: nat, o: Out)
    requires n <= |r.keywords| && forall p :: p in setup.lib.order ==> p.key != []
    ensures o in KeywordOuts(setup, r, n) <==>
            exists i :: 0 <= i < n && o.payload == PayloadOf(setup, r, r.keywords[i], o.pat) && IsPattern(setup, r.keywords[i], o.pat)
  {
    hide NormalOf, PayloadOf;
    if n > 0 {
      var kw := r.keywords[n - 1]; var cs := setup.variants(kw);
      KeywordOutsExact(setup, r, n - 1, o);
      PatternsForExact(setup, cs, |cs|, o.pat);
      OutsForExact(setup, r, kw, PatternsFor(setup, cs, |cs|), o);
      hide PatternsFor, OutsFor, IsPattern;
    }
  }

  /** o is one of the patterns of r's keywords. */
  ghost predicate IsOutOf(setup: Setup, r: KeywordRule, o: Out)
    requires forall p :: p in setup.lib.order ==> p.key != []
  {
    exists i :: 0 <= i < |r.keywords| && o.payload == PayloadOf(setup, r, r.keywords[i], o.pat) && IsPattern(setup, r.keywords[i], o.pat)
  }

  lemma {:induction false} RuleOutsExact(setup: Setup, rs: seq<KeywordRule>, o: Out)
    requires forall p :: p in setup.lib.order ==> p.key != []
    ensures o in RuleOuts(setup, rs) <==> exists i :: 0 <= i < |rs| && IsOutOf(setup, rs[i], o)
  {
    hide IsPattern, PayloadOf, KeywordOuts, IsOutOf;
    if rs != [] {
      var init, r := rs[..|rs| - 1], rs[|rs| - 1];
      RuleOutsExact(setup, init, o);
      LastOuts(setup, r, o);
      if o in RuleOuts(setup, init) {
        var i :| 0 <= i < |init| && IsOutOf(setup, init[i], o);
        assert rs[i] == init[i];
      }
      assert forall i :: 0 <= i < |init| ==> init[i] == rs[i];
    }
  }

  lemma LastOuts(setup: Setup, r: KeywordRule, o: Out)
    requires forall p :: p in setup.lib.order ==> p.key != []
    ensures o in KeywordOuts(setup, r, |r.keywords|) <==> IsOutOf(setup, r, o)
  {
    KeywordOutsExact(setup, r, |r.keywords|, o);
  }

  // ---------- The matcher ----------

  class KeywordMatcher {
    const setup: Setup
    const aho: AhoMatcher
    ghost const rules: seq<KeywordRule>

    ghost predicate Valid()
      reads this, aho
    {
      LibraryOK(setup.lib) && aho.Valid() && aho.built && aho.added == RuleOuts(setup, rules)
    }

    constructor (setup: Setup, rs: seq<KeywordRule>)
      requires LibraryOK(setup.lib)
      ensures Valid() && this.setup == setup && rules == rs && fresh(aho)
    {
      var a := new AhoMatcher();
      this.setup, aho, rules := setup, a, rs;
      new;
      for i := 0 to |rs|
        invariant a.Valid() && !a.built && a.added == RuleOuts(setup, rs[..i]) && fresh(a)
      {
        assert rs[..i + 1][..i] == rs[..i];
        AddRule(setup, a, rs[i]);
      }
      assert rs[..|rs|] == rs;
      ghost var order := a.Build();
    }

    /** The loops over a rule's keywords and their candidates. */
    static method AddRule(setup: Setup, a: AhoMatcher, r: KeywordRule)
      requires LibraryOK(setup.lib) && a.Valid() && !a.built
      modifies a
      ensures a.Valid() && !a.built && a.added == old(a.added) + KeywordOuts(setup, r, |r.keywords|)
    {
      hide PatternsFor, OutsFor, AhoMatcher.Valid, TablesOK, OrderOf;
      for k := 0 to |r.keywords|
        invariant a.Valid() && !a.built && a.added == old(a.added) + KeywordOuts(setup, r, k)
      {
        AddKeyword(setup, a, r, r.keywords[k]);
      }
    }

    static method AddKeyword(setup: Setup, a: AhoMatcher, r: KeywordRule, kw: string)
      requires LibraryOK(setup.lib) && a.Valid() && !a.built
      modifies a
      ensures a.Valid() && !a.built
      ensures var cs := setup.variants(kw); a.added == old(a.added) + OutsFor(setup, r, kw, PatternsFor(setup, cs, |cs|))
    {
      hide AhoMatcher.Valid, TablesOK, OrderOf, Convert, NormalForm;
      var cs := setup.variants(kw);
      var added: set<string> := {};
      for i := 0 to |cs|
        invariant a.Valid() && !a.built
        invariant added == set p | p in PatternsFor(setup, cs, i)
        invariant a.added == old(a.added) + OutsFor(setup, r, kw, PatternsFor(setup, cs, i))
      {
        var n := NormalizeWithMap(setup.lib.u, setup.lib.tables, setup.lib.order, cs[i]);
        var pattern := n.normalized;
        if pattern == "" || pattern in added {
          continue;
        }
        added := added + {pattern};
        a.Add(pattern, PayloadOf(setup, r, kw, pattern));
        assert OutsFor(setup, r, kw, PatternsFor(setup, cs, i + 1))
            == OutsFor(setup, r, kw, PatternsFor(setup, cs, i)) + [Out(pattern, PayloadOf(setup, r, kw, pattern))];
      }
    }

    method MatchText(text: string) returns (res: seq<Match>)
      requires Valid()
      ensures res == StableSort(MatchLess, NaiveSearch(RuleOuts(setup, rules), text))
    {
      ghost var hops;
      res, hops := aho.FindAll(text);
    }
  }

  // ---------- What is found ----------

  lemma {:induction false} OccurrencesMember(added: seq<Out>, text: Word, m: Match)
    ensures Occurrences(added, text, m) > 0 <==>
            0 <= m.start <= m.end <= |text| && Out(text[m.start..m.end], m.payload) in added
  {
    if added != [] {
      OccurrencesMember(added[1..], text, m);
      assert added == [added[0]] + added[1..];
    }
  }

  /** A match is reported exactly when the text there is a normalised variant of one of the rule's
      keywords; so every reported place is a non-empty stretch of the text. */
  lemma KeywordHits(setup: Setup, rs: seq<KeywordRule>, text: string, m: Match)
    requires LibraryOK(setup.lib)
    ensures m in StableSort(MatchLess, NaiveSearch(RuleOuts(setup, rs), text)) <==>
            && 0 <= m.start < m.end <= |text|
            && exists i :: 0 <= i < |rs| && IsOutOf(setup, rs[i], Out(text[m.start..m.end], m.payload))
  {
    hide StableSort, StrictWeakOrder, NaiveSearch, IsOutOf, RuleOuts, Occurrences, TablesOK, OrderOf, IsPattern;
    var outs := RuleOuts(setup, rs);
    forall o | o in outs ensures o.pat != [] {
      RuleOutsExact(setup, rs, o);
      var i :| 0 <= i < |rs| && IsOutOf(setup, rs[i], o);
      OutNotEmpty(setup, rs[i], o);
    }
    MatchOrder();
    var found := NaiveSearch(outs, text);
    StableSortCorrect(MatchLess, found);
    NaiveSearchExact(outs, text, m);
    OccurrencesMember(outs, text, m);
    var sorted := StableSort(MatchLess, found);
    assert m in sorted <==> m in multiset(sorted);
    assert m in multiset(found) <==> multiset(found)[m] > 0;
    if 0 <= m.start <= m.end <= |text| {
      var o := Out(text[m.start..m.end], m.payload);
      RuleOutsExact(setup, rs, o);
    }
  }

  lemma OutNotEmpty(setup: Setup, r: KeywordRule, o: Out)
    requires (forall p :: p in setup.lib.order ==> p.key != []) && IsOutOf(setup, r, o)
    ensures o.pat != []
  {
  }

  /** However a keyword is written, if the text normalises to what the keyword normalises to, it is
      found, over the whole normalised text. */
  lemma KeywordFound(setup: Setup, rs: seq<KeywordRule>, i: nat, k: nat, written: string)
    requires LibraryOK(setup.lib) && i < |rs| && k < |rs[i].keywords|
    requires rs[i].keywords[k] in setup.variants(rs[i].keywords[k]) && NormalOf(setup, rs[i].keywords[k]) != ""
    requires NormalOf(setup, written) == NormalOf(setup, rs[i].keywords[k])
    ensures var text := NormalOf(setup, written);
            Match(0, |text|, PayloadOf(setup, rs[i], rs[i].keywords[k], text)) in StableSort(MatchLess, NaiveSearch(RuleOuts(setup, rs), text))
  {
    hide StableSort, NaiveSearch, NormalOf, RuleOuts, TablesOK, OrderOf, PayloadOf;
    var kw, text := rs[i].keywords[k], NormalOf(setup, written);
    var m := Match(0, |text|, PayloadOf(setup, rs[i], kw, text));
    assert text[0..|text|] == text;
    assert IsPattern(setup, kw, text);
    assert IsOutOf(setup, rs[i], Out(text, m.payload));
    KeywordHits(setup, rs, text, m);
  }
}
