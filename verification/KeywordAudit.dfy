/** From the automaton to the audit: the keyword matcher's hits, and where the audit reports them. */
module KeywordAudit {
  import opened Ordering
  import opened Variant
  import opened Normalizer
  import opened Engine
  import opened Keyword
  import AhoSpec

  function HitOf(m: AhoSpec.Match): Hit {
    var p := m.payload;
    Hit("keyword", p.ruleID, p.found, m.start, m.end, p.score, p.action, false, p.notes, p.rest)
  }

  function HitsOf(ms: seq<AhoSpec.Match>): (hs: seq<Hit>)
    ensures |hs| == |ms| && forall i :: 0 <= i < |ms| ==> hs[i] == HitOf(ms[i])
  {
    seq(|ms|, i requires 0 <= i < |ms| => HitOf(ms[i]))
  }

  /** What the keyword matcher finds: the sorted naive search for all patterns. */
  function FoundIn(setup: Setup, rs: seq<KeywordRule>, text: string): seq<Hit>
    requires LibraryOK(setup.lib)
  {
    HitsOf(StableSort(AhoSpec.MatchLess, AhoSpec.NaiveSearch(RuleOuts(setup, rs), text)))
  }

  /** KeywordMatcher.Match. */
  method MatchKeywords(k: KeywordMatcher, text: string) returns (hits: seq<Hit>)
    requires k.Valid()
    ensures hits == FoundIn(k.setup, k.rules, text)
  {
    hide KeywordMatcher.Valid, LibraryOK, HitOf;
    var found := k.MatchText(text);
    hits := [];
    for i := 0 to |found|
      invariant hits == HitsOf(found[..i])
    {
      assert HitsOf(found[..i + 1]) == HitsOf(found[..i]) + [HitOf(found[i])];
      hits := hits + [HitOf(found[i])];
    }
    assert found[..|found|] == found;
  }

  /** The hit of rule r for its keyword kw on a stretch of the text. */
  function HitFor(setup: Setup, r: KeywordRule, kw: string, text: string, start: nat, end: nat): (h: Hit)
    requires start <= end <= |text|
    ensures h.kind == "keyword" && h.ruleID == r.id && h.found == kw && h.start == start && h.end == end && h.action == r.action
    ensures h.score == if r.score > 0 then r.score else if r.level == "high" then 90 else if r.level == "low" then 30 else 60
  {
    HitOf(AhoSpec.Match(start, end, PayloadOf(setup, r, kw, text[start..end])))
  }

  /** h is the hit of the i-th rule for its j-th keyword. */
  ghost predicate IsHitFor(setup: Setup, rs: seq<KeywordRule>, text: string, h: Hit, i: nat, j: nat)
    requires LibraryOK(setup.lib) && WithinText(h, |text|)
  {
    && i < |rs| && j < |rs[i].keywords|
    && IsPattern(setup, rs[i].keywords[j], text[h.start..h.end])
    && h == HitFor(setup, rs[i], rs[i].keywords[j], text, h.start, h.end)
  }

  /** Exactly the stretches that are patterns of a keyword are found. */
  lemma FoundExactly(setup: Setup, rs: seq<KeywordRule>, text: string, h: Hit)
    requires LibraryOK(setup.lib)
    ensures h in FoundIn(setup, rs, text) <==>
            && WithinText(h, |text|)
            && exists i: nat, j: nat :: IsHitFor(setup, rs, text, h, i, j)
  {
    hide StableSort, AhoSpec.NaiveSearch, RuleOuts, IsPattern, PayloadOf, TablesOK, OrderOf;
    var found := StableSort(AhoSpec.MatchLess, AhoSpec.NaiveSearch(RuleOuts(setup, rs), text));
    if h in FoundIn(setup, rs, text) {
      var n :| 0 <= n < |found| && HitOf(found[n]) == h;
      KeywordHits(setup, rs, text, found[n]);
      var o := AhoSpec.Out(text[h.start..h.end], found[n].payload);
      var i: nat :| i < |rs| && IsOutOf(setup, rs[i], o);
      var j: nat :| j < |rs[i].keywords| && o.payload == PayloadOf(setup, rs[i], rs[i].keywords[j], o.pat) && IsPattern(setup, rs[i].keywords[j], o.pat);
      assert IsHitFor(setup, rs, text, h, i, j);
    }
    if WithinText(h, |text|) {
      if i: nat, j: nat :| IsHitFor(setup, rs, text, h, i, j) {
        var m := AhoSpec.Match(h.start, h.end, PayloadOf(setup, rs[i], rs[i].keywords[j], text[h.start..h.end]));
        KeywordHits(setup, rs, text, m);
        var n :| 0 <= n < |found| && found[n] == m;
        assert HitsOf(found)[n] == h;
      }
    }
  }

  /** The keyword matcher in its place among the matchers. */
  function WithKeywords(setup: Setup, rs: seq<KeywordRule>, ms: Matchers): Matchers
    requires LibraryOK(setup.lib)
  {
    ms.(keyword := text => FoundIn(setup, rs, text))
  }

  ghost predicate OthersWithin(ms: Matchers) {
    forall s, h :: h in ms.regex(s) + ms.domain(s) + ms.homophone(s) + ms.pinyin(s) ==> WithinText(h, |s|)
  }

  /** Every reported place lies in the text, whatever the keywords are. */
  lemma ReportedWithKeywords(setup: Setup, rs: seq<KeywordRule>, ms: Matchers, opt: Options, text: string)
    requires LibraryOK(setup.lib) && opt.positions && OthersWithin(ms)
    ensures forall h :: h in Reported(setup.lib, WithKeywords(setup, rs, ms), opt, text) ==> WithinText(h, |text|)
  {
    hide LibraryOK, FoundIn, Reported, WithinText;
    var all := WithKeywords(setup, rs, ms);
    forall s, h | h in all.keyword(s) + all.regex(s) + all.domain(s) + all.homophone(s) + all.pinyin(s) ensures WithinText(h, |s|) {
      if h in all.keyword(s) {
        FoundExactly(setup, rs, s, h);
      } else {
        assert h in ms.regex(s) + ms.domain(s) + ms.homophone(s) + ms.pinyin(s);
      }
    }
    ReportedHits(setup.lib, all, opt, text);
  }

  /** A hit of the keyword matcher is among all hits, where it is placed. */
  lemma FoundIsAHit(setup: Setup, rs: seq<KeywordRule>, ms: Matchers, opt: Options, text: string, h: Hit)
    requires LibraryOK(setup.lib)
    requires h in FoundIn(setup, rs, NormalizedText(setup.lib, opt, text).normalized)
    ensures Place(NormalizedText(setup.lib, opt, text), opt, h) in AllHits(setup.lib, WithKeywords(setup, rs, ms), opt, text)
  {
    hide LibraryOK, FoundIn, NormalizedText, Place;
    var n, all := NormalizedText(setup.lib, opt, text), WithKeywords(setup, rs, ms);
    var raw := RawHits(setup.lib, all, opt, n.normalized);
    assert raw[..|FoundIn(setup, rs, n.normalized)|] == FoundIn(setup, rs, n.normalized);
    var k :| 0 <= k < |FoundIn(setup, rs, n.normalized)| && FoundIn(setup, rs, n.normalized)[k] == h;
    assert AllHits(setup.lib, all, opt, text)[k] == Place(n, opt, raw[k]);
  }

  /** Where a pattern of a keyword stands in the normalised text, the audit reports a hit of that key at
      the characters behind it, with at least the rule's score; or else it reports as many hits as it may,
      and none that has to come after this one. */
  lemma KeywordReported(setup: Setup, rs: seq<KeywordRule>, ms: Matchers, opt: Options, text: string,
                        i: nat, j: nat, start: nat, end: nat)
    requires LibraryOK(setup.lib) && opt.positions && i < |rs| && j < |rs[i].keywords|
    requires var s := NormalizedText(setup.lib, opt, text).normalized;
             start < end <= |s| && IsPattern(setup, rs[i].keywords[j], s[start..end])
    ensures var n := NormalizedText(setup.lib, opt, text);
            var h := Place(n, opt, HitFor(setup, rs[i], rs[i].keywords[j], n.normalized, start, end));
            var hits := Reported(setup.lib, WithKeywords(setup, rs, ms), opt, text);
            && WithinText(h, |text|) && |n.indexMap| == |n.normalized|
            && (forall k :: start <= k < end ==> h.start <= n.indexMap[k] < h.end)
            && AccountedFor(hits, Limit(opt), h)
  {
    hide LibraryOK, FoundIn, NormalizedText, Place, AccountedFor, SortDedup, IsPattern, GoodMap, HitFor, AllHits, RuleScore;
    var n := NormalizedText(setup.lib, opt, text);
    var h := HitFor(setup, rs[i], rs[i].keywords[j], n.normalized, start, end);
    assert IsHitFor(setup, rs, n.normalized, h, i, j);
    FoundExactly(setup, rs, n.normalized, h);
    FoundIsAHit(setup, rs, ms, opt, text, h);
    NormalizedMap(setup.lib, opt, text);
    PlacedWithin(n, opt, h);
    ReportedOrCutOff(AllHits(setup.lib, WithKeywords(setup, rs, ms), opt, text), Limit(opt), Place(n, opt, h));
  }

  /** A text that is written differently from a keyword, but normalises to what the keyword normalises
      to, is reported from its first to its last kept character, if it is not cut off. */
  lemma DisguisedKeywordReported(setup: Setup, rs: seq<KeywordRule>, ms: Matchers, opt: Options, text: string, i: nat, j: nat)
    requires LibraryOK(setup.lib) && opt.positions && opt.normalize && i < |rs| && j < |rs[i].keywords|
    requires rs[i].keywords[j] in setup.variants(rs[i].keywords[j])
    requires var lib := setup.lib;
             Normalize(lib.u, lib.tables, lib.order, text) == Normalize(lib.u, lib.tables, lib.order, rs[i].keywords[j]) != ""
    ensures var n := NormalizedText(setup.lib, opt, text);
            var hits := Reported(setup.lib, WithKeywords(setup, rs, ms), opt, text);
            n.indexMap != [] &&
            (|hits| < Limit(opt) ==>
               exists y :: y in hits && y.start == n.indexMap[0] && y.end == n.indexMap[|n.indexMap| - 1] + 1
                        && y.score >= RuleScore(rs[i].level, rs[i].score))
  {
    hide LibraryOK, NormalForm, Convert, Reported, IsPattern, RuleScore, KeyOf, GoodMap;
    var n := NormalizedText(setup.lib, opt, text);
    assert n.normalized[0..|n.normalized|] == n.normalized;
    IsOwnPattern(setup, rs[i].keywords[j]);
    NormalizedMap(setup.lib, opt, text);
    KeywordReported(setup, rs, ms, opt, text, i, j, 0, |n.normalized|);
  }

  lemma IsOwnPattern(setup: Setup, kw: string)
    requires LibraryOK(setup.lib) && kw in setup.variants(kw) && NormalOf(setup, kw) != ""
    ensures IsPattern(setup, kw, NormalOf(setup, kw))
  {
    hide NormalOf;
  }

  /** A keyword of a blocking rule blocks the text in which it stands, if hits with one key agree on the
      action and the hits with different keys are not too many. */
  lemma BlockingKeywordBlocks(setup: Setup, rs: seq<KeywordRule>, ms: Matchers, opt: Options, text: string,
                              i: nat, j: nat, start: nat, end: nat)
    requires LibraryOK(setup.lib) && i < |rs| && j < |rs[i].keywords| && rs[i].action == "block"
    requires var s := NormalizedText(setup.lib, opt, text).normalized;
             start < end <= |s| && IsPattern(setup, rs[i].keywords[j], s[start..end])
    requires var all := AllHits(setup.lib, WithKeywords(setup, rs, ms), opt, text);
             && |SortDedup(all)| <= Limit(opt)
             && forall x, y :: x in all && y in all && KeyOf(x) == KeyOf(y) ==> x.action == y.action
    ensures ActionFor(Reported(setup.lib, WithKeywords(setup, rs, ms), opt, text)) == "block"
  {
    hide LibraryOK, FoundIn, NormalizedText, KeyOf, SortDedup, IsPattern, AllHits, MapRange;
    var n := NormalizedText(setup.lib, opt, text);
    var h := HitFor(setup, rs[i], rs[i].keywords[j], n.normalized, start, end);
    assert IsHitFor(setup, rs, n.normalized, h, i, j);
    FoundExactly(setup, rs, n.normalized, h);
    FoundIsAHit(setup, rs, ms, opt, text, h);
    AgreeingKeysKeepAction(AllHits(setup.lib, WithKeywords(setup, rs, ms), opt, text), Limit(opt));
  }
}
