/** What multi-pattern matching means, and the theory of the automaton on words.

    Nothing here mentions nodes: a node of the trie is identified with the word that leads to
    it, a failure link with the longest proper suffix that is again such a word. */
module AhoSpec {
  import opened Ordering

  type Word = seq<char>

  /** The reported rule and the fields of its hit, which the matcher only carries along; notes are those
      that explain the hit. */
  datatype Payload = Payload(ruleID: string, found: string, score: int, action: string, notes: string, rest: string)

  datatype Out = Out(pat: Word, payload: Payload)

  datatype Match = Match(start: int, end: int, payload: Payload)

  // ---------- Naive search: every pattern at every position ----------

  predicate OccursAt(pat: Word, text: Word, start: nat) {
    start + |pat| <= |text| && text[start..start + |pat|] == pat
  }

  function NaiveAt(added: seq<Out>, text: Word, start: nat): seq<Match> {
    if added == [] then []
    else
      (if OccursAt(added[0].pat, text, start)
       then [Match(start, start + |added[0].pat|, added[0].payload)] else [])
      + NaiveAt(added[1..], text, start)
  }

  /** The occurrences that start before position n, by position, then in order of addition. */
  function NaiveBefore(added: seq<Out>, text: Word, n: nat): seq<Match> {
    if n == 0 then [] else NaiveBefore(added, text, n - 1) + NaiveAt(added, text, n - 1)
  }

  function NaiveSearch(added: seq<Out>, text: Word): seq<Match> {
    NaiveBefore(added, text, |text|)
  }

  /** The order of the reported matches: start, end, rule ID. */
  predicate MatchLess(a: Match, b: Match) {
    if a.start != b.start then a.start < b.start
    else if a.end != b.end then a.end < b.end
    else StrLess(a.payload.ruleID, b.payload.ruleID)
  }

  lemma MatchOrder()
    ensures StrictWeakOrder(MatchLess)
    ensures forall x, y :: Same(MatchLess, x, y) <==>
                             x.start == y.start && x.end == y.end && x.payload.ruleID == y.payload.ruleID
  {
    StrLessIsStrictTotal();
  }

  /** By start, then by end, then by rule ID. */
  ghost predicate Ascending(ms: seq<Match>) {
    forall i, j :: 0 <= i < j < |ms| ==>
                     || ms[i].start < ms[j].start
                     || (ms[i].start == ms[j].start && ms[i].end < ms[j].end)
                     || (ms[i].start == ms[j].start && ms[i].end == ms[j].end && !StrLess(ms[j].payload.ruleID, ms[i].payload.ruleID))
  }

  // ---------- What one step of the scan reports ----------

  function PatternsEqual(added: seq<Out>, w: Word): seq<Out> {
    if added == [] then []
    else (if added[0].pat == w then [added[0]] else []) + PatternsEqual(added[1..], w)
  }

  /** The added patterns that are suffixes of t, the longest first. */
  function SuffixOuts(added: seq<Out>, t: Word): seq<Out> {
    if t == [] then [] else PatternsEqual(added, t) + SuffixOuts(added, t[1..])
  }

  function Report(outs: seq<Out>, end: int): seq<Match> {
    if outs == [] then []
    else [Match(end - |outs[0].pat|, end, outs[0].payload)] + Report(outs[1..], end)
  }

  /** All reports of a scan, in the order in which the scan makes them. */
  function Scan(added: seq<Out>, text: Word): seq<Match> {
    if text == [] then []
    else Scan(added, text[..|text| - 1]) + Report(SuffixOuts(added, text), |text|)
  }

  lemma PatternsEqualCons(o: Out, t: seq<Out>, w: Word)
    ensures PatternsEqual([o] + t, w) == (if o.pat == w then [o] else []) + PatternsEqual(t, w)
  {
  }

  lemma {:induction false} PatternsEqualAppend(a: seq<Out>, b: seq<Out>, w: Word)
    ensures PatternsEqual(a + b, w) == PatternsEqual(a, w) + PatternsEqual(b, w)
  {
    hide PatternsEqual;
    if a == [] {
      assert a + b == b;
      NoPatternEqual(a, w);
    } else {
      PatternsEqualAppend(a[1..], b, w);
      assert a + b == [a[0]] + (a[1..] + b) && a == [a[0]] + a[1..];
      PatternsEqualCons(a[0], a[1..] + b, w);
      PatternsEqualCons(a[0], a[1..], w);
    }
  }

  lemma {:induction false} NoPatternEqual(added: seq<Out>, w: Word)
    requires forall o :: o in added ==> o.pat != w
    ensures PatternsEqual(added, w) == []
  {
    if added != [] {
      assert added[0] in added;
      NoPatternEqual(added[1..], w);
    }
  }

  lemma {:induction false} PatternsEqualMember(added: seq<Out>, w: Word, o: Out)
    ensures o in PatternsEqual(added, w) <==> o in added && o.pat == w
  {
    if added != [] {
      PatternsEqualMember(added[1..], w, o);
    }
  }

  lemma ReportCons(o: Out, t: seq<Out>, end: int)
    ensures Report([o] + t, end) == [Match(end - |o.pat|, end, o.payload)] + Report(t, end)
  {
  }

  lemma {:induction false} ReportAppend(a: seq<Out>, b: seq<Out>, end: int)
    ensures Report(a + b, end) == Report(a, end) + Report(b, end)
  {
    if a == [] {
      assert a + b == b;
    } else {
      ReportAppend(a[1..], b, end);
      assert a + b == [a[0]] + (a[1..] + b);
      ReportCons(a[0], a[1..] + b, end);
    }
  }

  // ---------- The scan reports what the naive search finds ----------

  /** Reports of patterns of one length fall into no class of another. */
  lemma {:induction false} ReportOtherClass(x: Match, outs: seq<Out>, end: int)
    requires forall o :: o in outs ==> end != x.end || end - |o.pat| != x.start
    ensures ClassOf(MatchLess, x, Report(outs, end)) == []
  {
    MatchOrder();
    if outs != [] {
      assert outs[0] in outs;
      ReportOtherClass(x, outs[1..], end);
      assert Report(outs, end)[1..] == Report(outs[1..], end);
    }
  }

  /** What both searches report for x's position and rule. */
  function Expected(added: seq<Out>, text: Word, x: Match): seq<Match> {
    if 0 <= x.start < x.end <= |text|
    then ClassOf(MatchLess, x, Report(PatternsEqual(added, text[x.start..x.end]), x.end))
    else []
  }

  /** What x's class in the reports of SuffixOuts(added, t) at n must be. */
  function ExpectedSuffix(x: Match, added: seq<Out>, t: Word, n: nat): seq<Match> {
    if x.end == n && 0 < n - x.start <= |t|
    then ClassOf(MatchLess, x, Report(PatternsEqual(added, t[|t| - (n - x.start)..]), n))
    else []
  }

  lemma SuffixOfTail(t: Word, k: nat)
    requires t != [] && k < |t|
    ensures t[1..][|t| - 1 - k..] == t[|t| - k..]
  {
  }

  lemma ExpectedSuffixStep(x: Match, added: seq<Out>, t: Word, n: nat)
    requires t != []
    ensures x.end == n && n - x.start == |t| ==>
              ExpectedSuffix(x, added, t, n) == ClassOf(MatchLess, x, Report(PatternsEqual(added, t), n))
              && ExpectedSuffix(x, added, t[1..], n) == []
    ensures !(x.end == n && n - x.start == |t|) ==> ExpectedSuffix(x, added, t, n) == ExpectedSuffix(x, added, t[1..], n)
  {
    hide ClassOf, Report, PatternsEqual, MatchLess;
    if x.end == n && n - x.start == |t| {
      assert t[0..] == t;
    } else if x.end == n && 0 < n - x.start < |t| {
      SuffixOfTail(t, n - x.start);
    }
  }

  lemma {:induction false} SuffixOutsClass(x: Match, added: seq<Out>, t: Word, n: nat)
    ensures ClassOf(MatchLess, x, Report(SuffixOuts(added, t), n)) == ExpectedSuffix(x, added, t, n)
  {
    if t != [] {
      var here, rest := PatternsEqual(added, t), SuffixOuts(added, t[1..]);
      ReportAppend(here, rest, n);
      ClassAppend(MatchLess, x, Report(here, n), Report(rest, n));
      SuffixOutsClass(x, added, t[1..], n);
      ExpectedSuffixStep(x, added, t, n);
      if !(x.end == n && n - x.start == |t|) {
        forall o | o in here ensures n != x.end || n - |o.pat| != x.start {
          PatternsEqualMember(added, t, o);
        }
        ReportOtherClass(x, here, n);
      }
    }
  }

  lemma {:induction false} ScanClass(x: Match, added: seq<Out>, text: Word)
    ensures ClassOf(MatchLess, x, Scan(added, text)) == Expected(added, text, x)
  {
    if text != [] {
      var n := |text|;
      var init := text[..n - 1];
      ScanClass(x, added, init);
      ClassAppend(MatchLess, x, Scan(added, init), Report(SuffixOuts(added, text), n));
      SuffixOutsClass(x, added, text, n);
      if 0 <= x.start < x.end <= n - 1 {
        assert init[x.start..x.end] == text[x.start..x.end];
      } else if 0 <= x.start < x.end == n {
        assert text[n - (n - x.start)..] == text[x.start..x.end];
      }
    }
  }

  /** One pattern at one position, as the naive search and as the scan report it. */
  lemma OneAtClass(x: Match, o: Out, text: Word, start: nat)
    requires start <= |text| && o.pat != []
    ensures var here := if OccursAt(o.pat, text, start) then [Match(start, start + |o.pat|, o.payload)] else [];
            ClassOf(MatchLess, x, here) ==
            if x.start == start then Expected([o], text, x) else []
  {
    hide StrLess, StrictWeakOrder;
    MatchOrder();
    hide MatchLess;
    if x.start == start < x.end <= |text| {
      var w := text[x.start..x.end];
      assert PatternsEqual([o], w) == (if o.pat == w then [o] else []) by { PatternsEqualCons(o, [], w); }
      ReportCons(o, [], x.end);
      ConsClass(MatchLess, x, Match(x.end - |o.pat|, x.end, o.payload), []);
      if OccursAt(o.pat, text, start) {
        ConsClass(MatchLess, x, Match(start, start + |o.pat|, o.payload), []);
      }
    } else if OccursAt(o.pat, text, start) {
      ConsClass(MatchLess, x, Match(start, start + |o.pat|, o.payload), []);
    }
  }

  lemma ExpectedCons(x: Match, o: Out, rest: seq<Out>, text: Word)
    ensures Expected([o] + rest, text, x) == Expected([o], text, x) + Expected(rest, text, x)
  {
    hide MatchLess, ClassOf, Report, PatternsEqual;
    if 0 <= x.start < x.end <= |text| {
      var w := text[x.start..x.end];
      PatternsEqualAppend([o], rest, w);
      ReportAppend(PatternsEqual([o], w), PatternsEqual(rest, w), x.end);
      ClassAppend(MatchLess, x, Report(PatternsEqual([o], w), x.end), Report(PatternsEqual(rest, w), x.end));
    }
  }

  lemma {:induction false} NaiveAtClass(x: Match, added: seq<Out>, text: Word, start: nat)
    requires start <= |text|
    requires forall o :: o in added ==> o.pat != []
    ensures ClassOf(MatchLess, x, NaiveAt(added, text, start)) ==
            if x.start == start then Expected(added, text, x) else []
  {
    hide MatchLess, ClassOf, Report, PatternsEqual, Expected, OccursAt;
    if added == [] {
      EmptyClass(x, text);
    } else {
      var o, rest := added[0], added[1..];
      assert o in added && added == [o] + rest;
      NaiveAtClass(x, rest, text, start);
      OneAtClass(x, o, text, start);
      ExpectedCons(x, o, rest, text);
      var here := if OccursAt(o.pat, text, start) then [Match(start, start + |o.pat|, o.payload)] else [];
      ClassAppend(MatchLess, x, here, NaiveAt(rest, text, start));
    }
  }

  lemma EmptyClass(x: Match, text: Word)
    ensures ClassOf(MatchLess, x, []) == [] == Expected([], text, x)
  {
  }

  lemma {:induction false} NaiveBeforeClass(x: Match, added: seq<Out>, text: Word, n: nat)
    requires n <= |text|
    requires forall o :: o in added ==> o.pat != []
    ensures ClassOf(MatchLess, x, NaiveBefore(added, text, n)) ==
            if x.start < n then Expected(added, text, x) else []
  {
    if n > 0 {
      NaiveBeforeClass(x, added, text, n - 1);
      NaiveAtClass(x, added, text, n - 1);
      ClassAppend(MatchLess, x, NaiveBefore(added, text, n - 1), NaiveAt(added, text, n - 1));
    }
  }

  /** The flagship fact on values: sorting the scan's reports gives the sorted naive search, with
      the same order among matches that the sort does not distinguish. */
  lemma ScanRefinesNaive(added: seq<Out>, text: Word)
    requires forall o :: o in added ==> o.pat != []
    ensures StableSort(MatchLess, Scan(added, text)) == StableSort(MatchLess, NaiveSearch(added, text))
  {
    MatchOrder();
    forall x ensures ClassOf(MatchLess, x, Scan(added, text)) == ClassOf(MatchLess, x, NaiveSearch(added, text)) {
      ScanClass(x, added, text);
      NaiveBeforeClass(x, added, text, |text|);
    }
    SortDetermined(MatchLess, Scan(added, text), NaiveSearch(added, text));
  }

  // ---------- The naive search reports each occurrence once ----------

  /** How many of the added patterns are the one that m reports, at m's place in the text. */
  function Occurrences(added: seq<Out>, text: Word, m: Match): nat {
    if added == [] then 0
    else
      (if 0 <= m.start <= m.end <= |text| && added[0] == Out(text[m.start..m.end], m.payload) then 1 else 0)
      + Occurrences(added[1..], text, m)
  }

  lemma {:induction false} NaiveAtCount(added: seq<Out>, text: Word, start: nat, m: Match)
    ensures multiset(NaiveAt(added, text, start))[m] == if m.start == start then Occurrences(added, text, m) else 0
  {
    if added != [] {
      NaiveAtCount(added[1..], text, start, m);
    }
  }

  lemma {:induction false} NaiveBeforeCount(added: seq<Out>, text: Word, n: nat, m: Match)
    requires n <= |text|
    ensures multiset(NaiveBefore(added, text, n))[m] == if 0 <= m.start < n then Occurrences(added, text, m) else 0
  {
    hide NaiveAt, Occurrences;
    if n > 0 {
      var before, here := NaiveBefore(added, text, n - 1), NaiveAt(added, text, n - 1);
      NaiveBeforeCount(added, text, n - 1, m);
      NaiveAtCount(added, text, n - 1, m);
      assert multiset(before + here)[m] == multiset(before)[m] + multiset(here)[m];
    }
  }

  lemma {:induction false} NoOccurrence(added: seq<Out>, text: Word, m: Match)
    requires forall o :: o in added ==> o.pat != []
    requires !(0 <= m.start < |text|)
    ensures Occurrences(added, text, m) == 0
  {
    if added != [] {
      assert added[0] in added;
      NoOccurrence(added[1..], text, m);
    }
  }

  /** Exactly one match for each added pattern and each position where it occurs, and no other. */
  lemma NaiveSearchExact(added: seq<Out>, text: Word, m: Match)
    requires forall o :: o in added ==> o.pat != []
    ensures multiset(NaiveSearch(added, text))[m] == Occurrences(added, text, m)
  {
    NaiveBeforeCount(added, text, |text|, m);
    if !(0 <= m.start < |text|) {
      NoOccurrence(added, text, m);
    }
  }

  /** So the sorted search ascends, and holds each match exactly as often. */
  lemma SortedSearchExact(added: seq<Out>, text: Word)
    requires forall o :: o in added ==> o.pat != []
    ensures var ms := StableSort(MatchLess, NaiveSearch(added, text));
            Ascending(ms) && forall m :: multiset(ms)[m] == Occurrences(added, text, m)
  {
    hide StableSort, NaiveSearch, Occurrences, StrLess;
    MatchOrder();
    StableSortCorrect(MatchLess, NaiveSearch(added, text));
    forall m { NaiveSearchExact(added, text, m); }
  }

  // ---------- Failure links on words ----------

  /** w without its last character. */
  ghost function Init(w: Word): Word {
    if w == [] then [] else w[..|w| - 1]
  }

  ghost predicate PrefixClosed(words: set<Word>) {
    && [] in words
    && forall w {:trigger Init(w)} :: w in words ==> Init(w) in words
  }

  /** The longest suffix of w that is a word of the trie. */
  ghost function LongestIn(w: Word, words: set<Word>): (r: Word)
    requires [] in words
    ensures r in words && |r| <= |w|
  {
    if w in words then w else LongestIn(w[1..], words)
  }

  /** It is a suffix, and no longer suffix is a word. */
  lemma {:induction false} LongestInCorrect(w: Word, words: set<Word>)
    requires [] in words
    ensures LongestIn(w, words) == w[|w| - |LongestIn(w, words)|..]
    ensures forall k :: 0 <= k < |w| - |LongestIn(w, words)| ==> w[k..] !in words
  {
    if w !in words {
      LongestInCorrect(w[1..], words);
      var r := LongestIn(w, words);
      forall k | 0 <= k < |w| - |r| ensures w[k..] !in words {
        if k > 0 {
          assert w[1..][k - 1..] == w[k..];
        } else {
          assert w[0..] == w;
        }
      }
    }
  }

  /** Where following failure links from u on c ends. */
  ghost function Follow(u: Word, c: char, words: set<Word>): Word
    requires [] in words
    decreases |u|
  {
    if u + [c] in words then u + [c]
    else if u == [] then []
    else Follow(LongestIn(u[1..], words), c, words)
  }

  lemma {:induction false} LongestExtend(w: Word, c: char, words: set<Word>)
    requires PrefixClosed(words)
    ensures LongestIn(w + [c], words) == LongestIn(LongestIn(w, words) + [c], words)
  {
    if w !in words {
      assert Init(w + [c]) == w;
      assert (w + [c])[1..] == w[1..] + [c];
      LongestExtend(w[1..], c, words);
    }
  }

  lemma {:induction false} FollowIsLongest(u: Word, c: char, words: set<Word>)
    requires PrefixClosed(words) && u in words
    ensures Follow(u, c, words) == LongestIn(u + [c], words)
    decreases |u|
  {
    if u + [c] !in words {
      if u == [] {
        assert (u + [c])[1..] == [];
      } else {
        FollowIsLongest(LongestIn(u[1..], words), c, words);
        LongestExtend(u[1..], c, words);
        assert (u + [c])[1..] == u[1..] + [c];
      }
    }
  }

  /** Reading c after w: the state moves as the failure links say. */
  lemma LongestStep(w: Word, c: char, words: set<Word>)
    requires PrefixClosed(words)
    ensures LongestIn(w + [c], words) == Follow(LongestIn(w, words), c, words)
  {
    LongestExtend(w, c, words);
    FollowIsLongest(LongestIn(w, words), c, words);
  }

  /** How many failure links are followed from u on c. */
  ghost function Hops(u: Word, c: char, words: set<Word>): nat
    requires [] in words
    decreases |u|
  {
    if u == [] || u + [c] in words then 0 else 1 + Hops(LongestIn(u[1..], words), c, words)
  }

  /** How many are followed while the text is scanned from the root. */
  ghost function ScanHops(text: Word, words: set<Word>): nat
    requires [] in words
  {
    if text == [] then 0
    else
      var read := text[..|text| - 1];
      ScanHops(read, words) + Hops(LongestIn(read, words), text[|text| - 1], words)
  }

  /** Each link followed makes the state shorter. */
  lemma {:induction false} HopsShorten(u: Word, c: char, words: set<Word>)
    requires [] in words
    ensures Hops(u, c, words) + |Follow(u, c, words)| <= |u| + 1
    decreases |u|
  {
    if u != [] && u + [c] !in words {
      HopsShorten(LongestIn(u[1..], words), c, words);
    }
  }

  /** A scan follows no more links than it reads characters. */
  lemma {:induction false} ScanIsLinear(text: Word, words: set<Word>)
    requires PrefixClosed(words)
    ensures ScanHops(text, words) + |LongestIn(text, words)| <= |text|
  {
    hide LongestIn, Hops, Follow;
    if text != [] {
      var read, c := text[..|text| - 1], text[|text| - 1];
      ScanIsLinear(read, words);
      assert text == read + [c];
      LongestStep(read, c, words);
      HopsShorten(LongestIn(read, words), c, words);
    }
  }

  /** The longest suffix in the trie has every pattern that is a suffix of t as a suffix. */
  lemma {:induction false} SuffixOutsLongest(added: seq<Out>, t: Word, words: set<Word>)
    requires [] in words
    requires forall o :: o in added ==> o.pat in words
    ensures SuffixOuts(added, LongestIn(t, words)) == SuffixOuts(added, t)
  {
    if t !in words {
      NoPatternEqual(added, t);
      SuffixOutsLongest(added, t[1..], words);
    }
  }
}
