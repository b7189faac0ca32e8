/** The audit: hits are placed in the original text, sorted and deduplicated, cut off, and summed up
    in an action and a score. */
module Engine {
  import opened Ordering
  import opened Text
  import opened Variant
  import opened Normalizer
  import opened Pinyin

  /** notes stands for the fields that explain a hit, and rest for those that are only carried along. */
  datatype Hit = Hit(kind: string, ruleID: string, found: string, start: int, end: int, score: int, action: string,
                     approximate: bool, notes: string, rest: string)

  // ---------- The order of hits ----------

  predicate Less(a: Hit, b: Hit) {
    if a.start != b.start then a.start < b.start
    else if a.end != b.end then a.end < b.end
    else if a.score != b.score then a.score > b.score
    else if a.kind != b.kind then StrLess(a.kind, b.kind)
    else if a.ruleID != b.ruleID then StrLess(a.ruleID, b.ruleID)
    else StrLess(a.found, b.found)
  }

  function HitLess(): (Hit, Hit) -> bool {
    (a: Hit, b: Hit) => Less(a, b)
  }

  lemma HitOrder()
    ensures StrictWeakOrder(HitLess())
  {
    hide StrLess;
    StrLessIsStrictTotal();
  }

  // ---------- Keys ----------

  function Digit(d: nat): char
    requires d < 10
  {
    ('0' as int + d) as char
  }

  function Decimal(n: nat): (s: string)
    ensures s != [] && forall i :: 0 <= i < |s| ==> '0' <= s[i] <= '9'
  {
    if n < 10 then [Digit(n)] else Decimal(n / 10) + [Digit(n % 10)]
  }

  function ValueOf(s: string): int {
    if s == [] then 0 else 10 * ValueOf(s[..|s| - 1]) + (s[|s| - 1] as int - '0' as int)
  }

  lemma {:induction false} DecimalValue(n: nat)
    ensures ValueOf(Decimal(n)) == n
  {
    if n < 10 {
      assert Decimal(n)[..0] == [];
    } else {
      DecimalValue(n / 10);
      assert Decimal(n)[..|Decimal(n)| - 1] == Decimal(n / 10);
    }
  }

  /** strconv.Itoa. */
  function Itoa(n: int): (s: string)
    ensures NUL !in s
  {
    if n < 0 then "-" + Decimal(-n) else Decimal(n)
  }

  lemma ItoaInjective(m: int, n: int)
    requires Itoa(m) == Itoa(n)
    ensures m == n
  {
    DecimalValue(if m < 0 then -m else m);
    DecimalValue(if n < 0 then -n else n);
    assert m < 0 ==> Itoa(m)[0] == '-' && Itoa(m)[1..] == Decimal(-m);
    assert n < 0 ==> Itoa(n)[0] == '-' && Itoa(n)[1..] == Decimal(-n);
  }

  /** The key under which a hit counts as seen. */
  function KeyOf(h: Hit): string {
    h.kind + [NUL] + h.ruleID + [NUL] + h.found + [NUL] + Itoa(h.start) + [NUL] + Itoa(h.end)
  }

  lemma SameKeySamePlace(a: Hit, b: Hit)
    requires KeyOf(a) == KeyOf(b)
    ensures a.start == b.start && a.end == b.end
    ensures a.kind + [NUL] + a.ruleID + [NUL] + a.found == b.kind + [NUL] + b.ruleID + [NUL] + b.found
  {
    hide Itoa;
    var x, y := a.kind + [NUL] + a.ruleID + [NUL] + a.found, b.kind + [NUL] + b.ruleID + [NUL] + b.found;
    SplitSameLast(x + [NUL] + Itoa(a.start), y + [NUL] + Itoa(b.start), Itoa(a.end), Itoa(b.end), NUL);
    SplitSameLast(x, y, Itoa(a.start), Itoa(b.start), NUL);
    ItoaInjective(a.start, b.start);
    ItoaInjective(a.end, b.end);
  }

  ghost predicate SameHit(a: Hit, b: Hit) {
    a.kind == b.kind && a.ruleID == b.ruleID && a.found == b.found && a.start == b.start && a.end == b.end
  }

  /** The key identifies type, rule, match and place, if rule IDs and types do not contain NUL. */
  lemma KeyInjective(a: Hit, b: Hit)
    requires NUL !in a.kind && NUL !in a.ruleID && NUL !in b.kind && NUL !in b.ruleID
    ensures KeyOf(a) == KeyOf(b) <==> SameHit(a, b)
  {
    if KeyOf(a) == KeyOf(b) {
      SameKeySamePlace(a, b);
      hide KeyOf;
      assert a.kind + [NUL] + (a.ruleID + [NUL] + a.found) == a.kind + [NUL] + a.ruleID + [NUL] + a.found;
      assert b.kind + [NUL] + (b.ruleID + [NUL] + b.found) == b.kind + [NUL] + b.ruleID + [NUL] + b.found;
      SplitSame(a.kind, b.kind, a.ruleID + [NUL] + a.found, b.ruleID + [NUL] + b.found, NUL);
      SplitSame(a.ruleID, b.ruleID, a.found, b.found, NUL);
    }
  }

  /** Two rules can have hits of one type and place with the same key if and only if one rule's ID is the
      other's, continued after a NUL. */
  lemma RulesCollideIff(h: Hit, r: string, q: string)
    requires r != q
    ensures (exists f, g :: KeyOf(h.(ruleID := r, found := f)) == KeyOf(h.(ruleID := q, found := g)))
            <==> r + [NUL] <= q || q + [NUL] <= r
  {
    hide Itoa;
    if f, g :| KeyOf(h.(ruleID := r, found := f)) == KeyOf(h.(ruleID := q, found := g)) {
      SameKeySameText(h, r, f, q, g);
      if |r| < |q| { Continued(r, f, q, g); } else { Continued(q, g, r, f); }
    }
    if r + [NUL] <= q {
      var f, g := CollidingMatches(h, r, q);
    }
    if q + [NUL] <= r {
      var f, g := CollidingMatches(h, q, r);
    }
  }

  lemma SameKeySameText(h: Hit, r: string, f: string, q: string, g: string)
    requires KeyOf(h.(ruleID := r, found := f)) == KeyOf(h.(ruleID := q, found := g))
    ensures r + [NUL] + f == q + [NUL] + g
  {
    hide Itoa;
    SameKeySamePlace(h.(ruleID := r, found := f), h.(ruleID := q, found := g));
    var x, y := h.kind + [NUL] + r + [NUL] + f, h.kind + [NUL] + q + [NUL] + g;
    assert x[|h.kind| + 1..] == r + [NUL] + f && y[|h.kind| + 1..] == q + [NUL] + g;
  }

  lemma Continued(r: string, f: string, q: string, g: string)
    requires r + [NUL] + f == q + [NUL] + g && |r| <= |q| && r != q
    ensures r + [NUL] <= q
  {
    var s := r + [NUL] + f;
    assert r == s[..|r|] && q == s[..|q|];
    assert q[..|r|] == r;
    assert s[|r|] == NUL;
  }

  /** The matches of q with text g, and of r with what follows its ID in q, NUL, and g. */
  lemma CollidingMatches(h: Hit, r: string, q: string) returns (f: string, g: string)
    requires r + [NUL] <= q
    ensures KeyOf(h.(ruleID := r, found := f)) == KeyOf(h.(ruleID := q, found := g))
    ensures KeyOf(h.(ruleID := q, found := g)) == KeyOf(h.(ruleID := r, found := f))
  {
    hide Itoa;
    g := "";
    f := q[|r| + 1..] + [NUL] + g;
    assert r + [NUL] + f == q + [NUL] + g;
    var k := h.kind + [NUL];
    assert k + r + [NUL] + f == k + (r + [NUL] + f);
    assert k + q + [NUL] + g == k + (q + [NUL] + g);
  }

  // ---------- Deduplication ----------

  function Keys(s: seq<Hit>): set<string> {
    set h | h in s :: KeyOf(h)
  }

  /** Of the first n hits, the first with each key. */
  function Dedup(s: seq<Hit>, n: nat): seq<Hit>
    requires n <= |s|
  {
    if n == 0 then []
    else if KeyOf(s[n - 1]) in Keys(Dedup(s, n - 1)) then Dedup(s, n - 1)
    else Dedup(s, n - 1) + [s[n - 1]]
  }

  lemma KeysSnoc(s: seq<Hit>, h: Hit)
    ensures Keys(s + [h]) == Keys(s) + {KeyOf(h)}
  {
  }

  lemma DedupStep(s: seq<Hit>, n: nat)
    requires 0 < n <= |s|
    ensures Dedup(s, n) == if KeyOf(s[n - 1]) in Keys(Dedup(s, n - 1)) then Dedup(s, n - 1) else Dedup(s, n - 1) + [s[n - 1]]
  {
  }

  lemma KeysMember(s: seq<Hit>, k: string)
    ensures k in Keys(s) <==> exists i :: 0 <= i < |s| && KeyOf(s[i]) == k
  {
  }

  /** What is kept comes from the input, in order and without a key twice. */
  lemma {:induction false} DedupResult(s: seq<Hit>, n: nat)
    requires n <= |s|
    ensures var d := Dedup(s, n);
            && |d| <= n
            && (forall i :: 0 <= i < |d| ==> exists j :: 0 <= j < n && s[j] == d[i])
            && (forall i, j :: 0 <= i < j < |d| ==> KeyOf(d[i]) != KeyOf(d[j]))
  {
    hide KeyOf, Keys, Dedup;
    if n == 0 {
      NothingKept(s);
    } else {
      DedupResult(s, n - 1);
      DedupStep(s, n);
      KeysMember(Dedup(s, n - 1), KeyOf(s[n - 1]));
    }
  }

  lemma NothingKept(s: seq<Hit>)
    ensures Dedup(s, 0) == []
  {
  }

  /** Each hit has one with its key among those kept, at or before its own position. */
  lemma {:induction false} DedupRepresents(s: seq<Hit>, n: nat, i: nat) returns (j: nat)
    requires i < n <= |s|
    ensures j <= i && s[j] in Dedup(s, n) && KeyOf(s[j]) == KeyOf(s[i])
    decreases n
  {
    hide KeyOf, Keys, Dedup;
    DedupStep(s, n);
    var d := Dedup(s, n - 1);
    if i < n - 1 {
      j := DedupRepresents(s, n - 1, i);
    } else if KeyOf(s[i]) in Keys(d) {
      KeysMember(d, KeyOf(s[i]));
      var k :| 0 <= k < |d| && KeyOf(d[k]) == KeyOf(s[i]);
      DedupResult(s, n - 1);
      j :| 0 <= j < n - 1 && s[j] == d[k];
    } else {
      j := i;
    }
  }

  lemma {:induction false} DedupSorted(s: seq<Hit>, n: nat)
    requires n <= |s| && Sorted(HitLess(), s)
    ensures Sorted(HitLess(), Dedup(s, n))
  {
    hide KeyOf, Less, Keys, Dedup, HitLess;
    if n == 0 {
      NothingKept(s);
    } else {
      DedupSorted(s, n - 1);
      DedupResult(s, n - 1);
      DedupStep(s, n);
    }
  }

  /** sortDedup's result. */
  function SortDedup(s: seq<Hit>): seq<Hit> {
    Dedup(StableSort(HitLess(), s), |StableSort(HitLess(), s)|)
  }

  /** Sorted, one hit for each key, and every hit is represented by one at its place with at least
      its score. */
  lemma SortDedupCorrect(s: seq<Hit>)
    ensures var d := SortDedup(s);
            && Sorted(HitLess(), d) && |d| <= |s|
            && (forall x :: x in d ==> x in s)
            && (forall i, j :: 0 <= i < j < |d| ==> KeyOf(d[i]) != KeyOf(d[j]))
            && Represented(d, s)
  {
    hide KeyOf, Keys, Dedup, StrictWeakOrder, StableSort, Less, HitLess, Represents;
    var t := StableSort(HitLess(), s);
    HitOrder();
    StableSortCorrect(HitLess(), s);
    DedupSorted(t, |t|);
    DedupResult(t, |t|);
    SameMembers(t, s);
    forall x | x in s ensures exists y :: y in SortDedup(s) && Represents(y, x) {
      var i :| 0 <= i < |t| && t[i] == x;
      var j := DedupRepresents(t, |t|, i);
      BestIsFirst(t, j, i);
    }
  }

  /** y stands for x: it has the same key and place, and at least its score. */
  ghost predicate Represents(y: Hit, x: Hit) {
    KeyOf(y) == KeyOf(x) && y.start == x.start && y.end == x.end && y.score >= x.score
  }

  /** Every hit of s has one in d that stands for it. */
  ghost predicate Represented(d: seq<Hit>, s: seq<Hit>) {
    forall x :: x in s ==> exists y :: y in d && Represents(y, x)
  }

  lemma Representative(d: seq<Hit>, s: seq<Hit>, x: Hit) returns (y: Hit)
    requires Represented(d, s) && x in s
    ensures y in d && KeyOf(y) == KeyOf(x) && y.start == x.start && y.end == x.end && y.score >= x.score
  {
    hide KeyOf;
    y :| y in d && Represents(y, x);
  }

  lemma BestIsFirst(t: seq<Hit>, j: nat, i: nat)
    requires Sorted(HitLess(), t) && j <= i < |t| && KeyOf(t[j]) == KeyOf(t[i])
    ensures Represents(t[j], t[i])
  {
    hide KeyOf;
    SameKeySamePlace(t[j], t[i]);
    assert i == j || !HitLess()(t[i], t[j]);
  }

  lemma SameMembers(a: seq<Hit>, b: seq<Hit>)
    requires multiset(a) == multiset(b)
    ensures forall x :: x in a <==> x in b
  {
    forall x ensures x in a <==> x in b {
      assert x in a <==> x in multiset(a);
      assert x in b <==> x in multiset(b);
    }
  }

  /** sort.SliceStable. */
  method SortSlice(h: array<Hit>)
    modifies h
    ensures h[..] == StableSort(HitLess(), old(h[..]))
  {
    hide Less, StableSort;
    ghost var was := h[..];
    HitOrder();
    StableSortCorrect(HitLess(), was);
    var sorted := StableSort(HitLess(), h[..]);
    for i := 0 to h.Length
      invariant h[..i] == sorted[..i]
    {
      h[i] := sorted[i];
    }
  }

  /** sortDedup: the kept hits are the first n of the same array. */
  method SortDedupInPlace(h: array<Hit>) returns (n: nat)
    modifies h
    ensures n <= h.Length && h[..n] == SortDedup(old(h[..]))
  {
    hide KeyOf, Keys, StableSort, Less;
    SortSlice(h);
    ghost var s := h[..];
    var seen: set<string> := {};
    n := 0;
    NoKeys();
    for i := 0 to h.Length
      invariant n <= i && h[..n] == Dedup(s, i) && h[i..] == s[i..]
      invariant seen == Keys(h[..n])
    {
      var x := h[i];
      assert x == s[i] by { assert h[i..][0] == s[i..][0]; }
      if KeyOf(x) !in seen {
        seen := seen + {KeyOf(x)};
        KeysSnoc(h[..n], x);
        h[n] := x;
        n := n + 1;
        assert h[..n] == Dedup(s, i) + [x];
      }
      assert h[i + 1..] == s[i + 1..];
    }
  }

  lemma NoKeys()
    ensures Keys([]) == {}
  {
  }

  // ---------- The action and the score ----------

  function Rank(action: string): nat {
    if action == "block" then 2 else if action == "review" then 1 else 0
  }

  function HigherAction(a: string, b: string): string {
    if Rank(b) > Rank(a) then b else a
  }

  ghost predicate AnyHas(hits: seq<Hit>, action: string) {
    exists x :: x in hits && x.action == action
  }

  /** Block if any hit blocks, else review if any asks for review, else pass. */
  ghost function ActionFor(hits: seq<Hit>): string {
    if AnyHas(hits, "block") then "block" else if AnyHas(hits, "review") then "review" else "pass"
  }

  function CountAction(hits: seq<Hit>, action: string): nat {
    if hits == [] then 0 else CountAction(hits[..|hits| - 1], action) + if hits[|hits| - 1].action == action then 1 else 0
  }

  ghost predicate IsMaxScore(m: int, hits: seq<Hit>) {
    m >= 0 && (forall x :: x in hits ==> x.score <= m) && (m == 0 || exists x :: x in hits && x.score == m)
  }

  datatype Summary = Summary(action: string, score: int, blocks: nat, reviews: nat)

  /** The loop over the hits at the end of the audit. */
  method Summarize(hits: seq<Hit>) returns (s: Summary)
    ensures s.action == ActionFor(hits) && IsMaxScore(s.score, hits)
    ensures s.blocks == CountAction(hits, "block") && s.reviews == CountAction(hits, "review")
  {
    hide ActionFor, IsMaxScore;
    s := Summary("pass", 0, 0, 0);
    NothingFound();
    assert hits[..0] == [];
    for i := 0 to |hits|
      invariant s.action == ActionFor(hits[..i]) && IsMaxScore(s.score, hits[..i])
      invariant s.blocks == CountAction(hits[..i], "block") && s.reviews == CountAction(hits[..i], "review")
    {
      var h := hits[i];
      assert hits[..i + 1] == hits[..i] + [h];
      CountActionSnoc(hits[..i], h);
      ActionSnoc(hits[..i], h);
      MaxSnoc(hits[..i], h, s.score);
      s := Summary(HigherAction(s.action, h.action), if h.score > s.score then h.score else s.score,
                   s.blocks + (if h.action == "block" then 1 else 0), s.reviews + (if h.action == "review" then 1 else 0));
    }
    assert hits[..|hits|] == hits;
  }

  lemma NothingFound()
    ensures ActionFor([]) == "pass" && IsMaxScore(0, [])
  {
  }

  lemma CountActionSnoc(hits: seq<Hit>, h: Hit)
    ensures forall a :: CountAction(hits + [h], a) == CountAction(hits, a) + if h.action == a then 1 else 0
  {
  }

  lemma AnySnoc(hits: seq<Hit>, h: Hit, a: string)
    ensures AnyHas(hits + [h], a) <==> AnyHas(hits, a) || h.action == a
  {
    assert forall x :: x in hits + [h] <==> x in hits || x == h;
    if AnyHas(hits, a) {
      var x :| x in hits && x.action == a;
      assert x in hits + [h];
    }
    assert h in hits + [h];
  }

  lemma ActionSnoc(hits: seq<Hit>, h: Hit)
    ensures ActionFor(hits + [h]) == HigherAction(ActionFor(hits), h.action)
  {
    hide AnyHas;
    AnySnoc(hits, h, "block");
    AnySnoc(hits, h, "review");
  }

  lemma MaxSnoc(hits: seq<Hit>, h: Hit, m: int)
    requires IsMaxScore(m, hits)
    ensures IsMaxScore(if h.score > m then h.score else m, hits + [h])
  {
    var t := hits + [h];
    assert forall x :: x in t <==> x in hits || x == h;
    assert h in t && forall x :: x in hits ==> x in t;
  }

  /** The action and the score depend on neither order nor repetition. */
  lemma SummaryOfMembers(a: seq<Hit>, b: seq<Hit>, m: int)
    requires forall x :: x in a <==> x in b
    ensures ActionFor(a) == ActionFor(b) && (IsMaxScore(m, a) <==> IsMaxScore(m, b))
  {
  }

  /** Deduplication never changes the highest score. */
  lemma DedupKeepsMaxScore(s: seq<Hit>, m: int)
    ensures IsMaxScore(m, SortDedup(s)) <==> IsMaxScore(m, s)
  {
    hide KeyOf, SortDedup, HitLess, Less, Sorted, Represented, IsMaxScore;
    SortDedupCorrect(s);
    MaxOfPart(SortDedup(s), s, m);
    MaxOfWhole(SortDedup(s), s, m);
  }

  lemma MaxOfPart(d: seq<Hit>, s: seq<Hit>, m: int)
    requires (forall x :: x in d ==> x in s) && Represented(d, s)
    ensures IsMaxScore(m, d) ==> IsMaxScore(m, s)
  {
    hide KeyOf, Represented;
    if IsMaxScore(m, d) {
      forall x | x in s ensures x.score <= m {
        var y := Representative(d, s, x);
      }
    }
  }

  lemma MaxOfWhole(d: seq<Hit>, s: seq<Hit>, m: int)
    requires (forall x :: x in d ==> x in s) && Represented(d, s)
    ensures IsMaxScore(m, s) ==> IsMaxScore(m, d)
  {
    hide KeyOf, Represented;
    if IsMaxScore(m, s) && m != 0 {
      var x :| x in s && x.score == m;
      var y := Representative(d, s, x);
      assert y in s && y.score == m;
    }
  }

  // ---------- Which hits count ----------

  /** The i-th hit is the first with its key. */
  ghost predicate First(s: seq<Hit>, i: nat)
    requires i < |s|
  {
    KeyOf(s[i]) !in Keys(s[..i])
  }

  /** How many keys the hits before the i-th have. */
  ghost function KeysBefore(s: seq<Hit>, i: nat): nat
    requires i <= |s|
  {
    |Keys(s[..i])|
  }

  lemma KeysNext(s: seq<Hit>, n: nat)
    requires 0 < n <= |s|
    ensures Keys(s[..n]) == Keys(s[..n - 1]) + {KeyOf(s[n - 1])}
    ensures KeysBefore(s, n) == KeysBefore(s, n - 1) + if First(s, n - 1) then 1 else 0
  {
    hide KeyOf, Keys;
    assert s[..n] == s[..n - 1] + [s[n - 1]];
    KeysSnoc(s[..n - 1], s[n - 1]);
    var before := Keys(s[..n - 1]);
    if KeyOf(s[n - 1]) in before {
      assert before + {KeyOf(s[n - 1])} == before;
    }
  }

  lemma {:induction false} DedupKeys(s: seq<Hit>, n: nat)
    requires n <= |s|
    ensures Keys(Dedup(s, n)) == Keys(s[..n]) && |Dedup(s, n)| == KeysBefore(s, n)
  {
    hide KeyOf, Keys, Dedup;
    if n == 0 {
      NothingKept(s);
      NoKeys();
      assert s[..0] == [];
    } else {
      DedupKeys(s, n - 1);
      DedupStep(s, n);
      KeysNext(s, n);
      KeysSnoc(Dedup(s, n - 1), s[n - 1]);
      var k := KeyOf(s[n - 1]);
      assert k in Keys(s[..n - 1]) ==> Keys(s[..n - 1]) + {k} == Keys(s[..n - 1]);
    }
  }

  /** A first hit is kept, behind one hit for each key before it. */
  lemma {:induction false} FirstIsKept(s: seq<Hit>, n: nat, i: nat)
    requires i < n <= |s| && First(s, i)
    ensures KeysBefore(s, i) < |Dedup(s, n)| && Dedup(s, n)[KeysBefore(s, i)] == s[i]
  {
    hide KeyOf, Keys, Dedup;
    DedupStep(s, n);
    DedupKeys(s, n - 1);
    if i < n - 1 {
      FirstIsKept(s, n - 1, i);
    }
  }

  /** And only first hits are kept. */
  lemma {:induction false} KeptIsFirst(s: seq<Hit>, n: nat, j: nat) returns (i: nat)
    requires n <= |s| && j < |Dedup(s, n)|
    ensures i < n && First(s, i) && KeysBefore(s, i) == j && s[i] == Dedup(s, n)[j]
  {
    hide KeyOf, Keys, Dedup;
    if n == 0 {
      NothingKept(s);
      assert false;
    } else {
      DedupStep(s, n);
      DedupKeys(s, n - 1);
      if j < |Dedup(s, n - 1)| {
        i := KeptIsFirst(s, n - 1, j);
      } else {
        i := n - 1;
      }
    }
  }

  function Cut(hits: seq<Hit>, max: nat): seq<Hit> {
    if |hits| > max then hits[..max] else hits
  }

  /** What is reported of some hits: the sorted hits that are first with their key and have fewer than max
      keys before them. */
  lemma ReportedIff(hits: seq<Hit>, max: nat, x: Hit)
    ensures var s := StableSort(HitLess(), hits);
            x in Cut(SortDedup(hits), max) <==> exists i :: 0 <= i < |s| && s[i] == x && First(s, i) && KeysBefore(s, i) < max
  {
    hide KeyOf, Keys, StableSort, HitLess, Less, First, KeysBefore, Dedup;
    var s := StableSort(HitLess(), hits);
    var d := SortDedup(hits);
    InCut(d, max, x);
    if j :| 0 <= j < |d| && j < max && d[j] == x {
      var i := KeptIsFirst(s, |s|, j);
    }
    if i: int :| 0 <= i < |s| && s[i] == x && First(s, i) && KeysBefore(s, i) < max {
      FirstIsKept(s, |s|, i);
      assert d[KeysBefore(s, i)] == x;
    }
  }

  lemma InCut(hits: seq<Hit>, max: nat, x: Hit)
    ensures x in Cut(hits, max) <==> exists j :: 0 <= j < |hits| && j < max && hits[j] == x
  {
    if j :| 0 <= j < |hits| && j < max && hits[j] == x {
      assert Cut(hits, max)[j] == x;
    }
  }

  /** x is represented among what is reported, or has been cut off: as many hits as may be are reported,
      and none of them has to come after x. */
  ghost predicate AccountedFor(reported: seq<Hit>, max: nat, x: Hit) {
    (exists y :: y in reported && Represents(y, x)) || (|reported| == max && forall y :: y in reported ==> !Less(x, y))
  }

  lemma ReportedOrCutOff(hits: seq<Hit>, max: nat, x: Hit)
    requires x in hits
    ensures AccountedFor(Cut(SortDedup(hits), max), max, x)
  {
    hide KeyOf, Keys, StableSort, HitLess, Less, Dedup, Represents, StrictWeakOrder;
    var s, d := StableSort(HitLess(), hits), SortDedup(hits);
    HitOrder();
    StableSortCorrect(HitLess(), hits);
    SameMembers(s, hits);
    var i :| 0 <= i < |s| && s[i] == x;
    var j := DedupRepresents(s, |s|, i);
    BestIsFirst(s, j, i);
    var k :| 0 <= k < |d| && d[k] == s[j];
    if k < max {
      assert Cut(d, max)[k] == s[j];
    } else {
      DedupSorted(s, |s|);
      NotBefore(s, j, i, d, k);
    }
  }

  /** A hit behind the first of its key does not go before those that come before that one. */
  lemma NotBefore(s: seq<Hit>, j: nat, i: nat, d: seq<Hit>, k: nat)
    requires Sorted(HitLess(), s) && Sorted(HitLess(), d) && j <= i < |s| && k < |d| && d[k] == s[j]
    ensures forall n :: 0 <= n < k ==> !Less(s[i], d[n])
  {
    hide Less;
    HitOrder();
    forall n | 0 <= n < k ensures !Less(s[i], d[n]) {
      assert !HitLess()(d[k], d[n]);
      assert i == j || !HitLess()(s[i], s[j]);
    }
  }

  /** No hit of s has a higher rank than the i-th. */
  ghost predicate Top(s: seq<Hit>, i: nat)
    requires i < |s|
  {
    forall k :: 0 <= k < |s| ==> Rank(s[k].action) <= Rank(s[i].action)
  }

  /** Some hit of the highest rank is, among all hits in order, the first with its key, and fewer keys than
      may be reported come before it. */
  ghost predicate TopIsReported(hits: seq<Hit>, max: nat) {
    var s := StableSort(HitLess(), hits);
    hits == [] || exists i :: 0 <= i < |s| && Top(s, i) && First(s, i) && KeysBefore(s, i) < max
  }

  /** The action of what is reported is that of all hits if and only if such a hit exists. */
  lemma ActionKeptIff(hits: seq<Hit>, max: nat)
    requires max > 0
    ensures ActionFor(Cut(SortDedup(hits), max)) == ActionFor(hits) <==> TopIsReported(hits, max)
  {
    hide KeyOf, Keys, StableSort, HitLess, Less, KeysBefore, First, SortDedup, Cut, StrictWeakOrder;
    var s, c := StableSort(HitLess(), hits), Cut(SortDedup(hits), max);
    HitOrder();
    StableSortCorrect(HitLess(), hits);
    SameMembers(s, hits);
    SummaryOfMembers(s, hits, 0);
    forall x { ReportedIff(hits, max, x); }
    if hits != [] {
      FirstOfAll(s, max);
      if i :| 0 <= i < |s| && Top(s, i) && First(s, i) && KeysBefore(s, i) < max {
        assert s[i] in c;
        TopDecides(s, c, i);
      }
      if ActionFor(c) == ActionFor(s) {
        var i := TopKept(s, c, max);
      }
    }
  }

  lemma FirstOfAll(s: seq<Hit>, max: nat)
    requires s != [] && max > 0
    ensures First(s, 0) && KeysBefore(s, 0) < max
  {
    assert s[..0] == [];
  }

  /** A part that has a hit of the highest rank has the action of the whole. */
  lemma TopDecides(s: seq<Hit>, c: seq<Hit>, i: nat)
    requires i < |s| && Top(s, i) && s[i] in c && forall x :: x in c ==> x in s
    ensures ActionFor(c) == ActionFor(s)
  {
    RankOfAction(s);
    RankOfAction(c);
    forall x | x in s ensures Rank(x.action) <= Rank(s[i].action) {
      var k :| 0 <= k < |s| && s[k] == x;
    }
  }

  /** The action's rank is the highest of all ranks. */
  lemma RankOfAction(s: seq<Hit>)
    ensures forall x :: x in s ==> Rank(x.action) <= Rank(ActionFor(s))
    ensures Rank(ActionFor(s)) == 0 || exists x :: x in s && x.action == ActionFor(s)
  {
  }

  lemma TopKept(s: seq<Hit>, c: seq<Hit>, max: nat) returns (i: nat)
    requires s != [] && ActionFor(c) == ActionFor(s) && max > 0
    requires forall x :: x in c <==> exists k :: 0 <= k < |s| && s[k] == x && First(s, k) && KeysBefore(s, k) < max
    ensures i < |s| && Top(s, i) && First(s, i) && KeysBefore(s, i) < max
  {
    hide First, KeysBefore, ActionFor;
    RankOfAction(s);
    RankOfAction(c);
    FirstOfAll(s, max);
    if Rank(ActionFor(s)) == 0 {
      i := 0;
      forall k | 0 <= k < |s| ensures Rank(s[k].action) == 0 { assert s[k] in s; }
    } else {
      var x :| x in c && x.action == ActionFor(c);
      i :| 0 <= i < |s| && s[i] == x && First(s, i) && KeysBefore(s, i) < max;
      forall k | 0 <= k < |s| ensures Rank(s[k].action) <= Rank(s[i].action) { assert s[k] in s; }
    }
  }

  /** If the hits with one key agree on the action, and there are no more keys than may be reported, the
      action is that of all hits. */
  lemma AgreeingKeysKeepAction(hits: seq<Hit>, max: nat)
    requires forall x, y :: x in hits && y in hits && KeyOf(x) == KeyOf(y) ==> x.action == y.action
    ensures ActionFor(SortDedup(hits)) == ActionFor(hits)
    ensures |SortDedup(hits)| <= max ==> ActionFor(Cut(SortDedup(hits), max)) == ActionFor(hits)
  {
    hide KeyOf, HitLess, Less, SortDedup, Sorted, Represented;
    SortDedupCorrect(hits);
    var d := SortDedup(hits);
    forall a ensures AnyHas(d, a) <==> AnyHas(hits, a) {
      if AnyHas(hits, a) {
        var x :| x in hits && x.action == a;
        var y := Representative(d, hits, x);
        assert y in hits;
      }
    }
  }

  // ---------- Places ----------

  datatype Options = Options(normalize: bool, pinyin: bool, homophone: bool, explanations: bool, positions: bool, maxHits: int)

  /** A hit found in the pinyin text, placed in the normalised text. */
  function PlacePinyin(m: TextMap, h: Hit): Hit {
    if h.start >= 0 && h.end > h.start && h.end - 1 < |m.indexMap|
    then h.(start := m.indexMap[h.start], end := m.indexMap[h.end - 1] + 1, approximate := true)
    else h
  }

  /** A hit in the normalised text, as reported. */
  function Place(n: Normalizer.Result, opt: Options, h: Hit): Hit {
    var (s, e, approximate) := MapRange(n, h.start, h.end);
    var g := h.(start := s, end := e, approximate := approximate, notes := if opt.explanations then h.notes else "");
    if opt.positions then g else g.(start := 0, end := 0, approximate := false)
  }

  predicate WithinText(h: Hit, length: nat) {
    0 <= h.start < h.end <= length
  }

  /** A hit in the pinyin text is reported at a non-empty place of the original, and so is one in the
      normalised text. */
  lemma PlacedWithin(n: Normalizer.Result, opt: Options, h: Hit)
    requires GoodMap(n.indexMap, |n.original|) && WithinText(h, |n.indexMap|) && opt.positions
    ensures var g := Place(n, opt, h);
            && WithinText(g, |n.original|) && g.start == n.indexMap[h.start] && g.end - 1 == n.indexMap[h.end - 1]
            && (forall k :: h.start <= k < h.end ==> g.start <= n.indexMap[k] < g.end)
            && (!g.approximate <==> forall k :: h.start <= k < h.end ==> n.indexMap[k] == g.start + (k - h.start))
  {
    MapRangeCorrect(n, h.start, h.end);
  }

  /** Placing a hit changes nothing but its place, the mark, and the notes if they are not asked for. */
  lemma PlaceKeeps(n: Normalizer.Result, opt: Options, h: Hit)
    ensures var g := Place(n, opt, h);
            && g == h.(start := g.start, end := g.end, approximate := g.approximate, notes := g.notes)
            && g.notes == (if opt.explanations then h.notes else "")
            && (!opt.positions ==> g.start == 0 && g.end == 0 && !g.approximate)
  {
  }

  lemma PinyinPlacedWithin(m: TextMap, h: Hit, length: nat)
    requires GoodMap(m.indexMap, length) && WithinText(h, |m.indexMap|)
    ensures var g := PlacePinyin(m, h);
            && g == h.(start := m.indexMap[h.start], end := m.indexMap[h.end - 1] + 1, approximate := true)
            && WithinText(g, length) && forall k :: h.start <= k < h.end ==> g.start <= m.indexMap[k] < g.end
  {
  }

  ghost predicate Contiguous(idx: seq<nat>, i: int, j: int)
    requires 0 <= i <= j <= |idx|
  {
    forall k :: i <= k < j ==> idx[k] == idx[i] + (k - i)
  }

  /** The characters of the original behind the pinyin hit are contiguous. */
  ghost predicate ContiguousBehind(m: TextMap, n: Normalizer.Result, h: Hit)
    requires WithinText(h, |m.indexMap|) && GoodMap(m.indexMap, |n.indexMap|)
  {
    forall k :: h.start <= k < h.end ==> n.indexMap[m.indexMap[k]] == n.indexMap[m.indexMap[h.start]] + (k - h.start)
  }

  /** Through both maps, characters are contiguous exactly if each map keeps them so. */
  lemma ContiguousThroughBoth(m: TextMap, n: Normalizer.Result, h: Hit)
    requires WithinText(h, |m.indexMap|) && GoodMap(m.indexMap, |n.indexMap|) && GoodMap(n.indexMap, |n.original|)
    ensures var p := PlacePinyin(m, h);
            ContiguousBehind(m, n, h) <==> Contiguous(m.indexMap, h.start, h.end) && Contiguous(n.indexMap, p.start, p.end)
  {
    var p := PlacePinyin(m, h);
    IncreasingGap(m.indexMap, h.start, h.end - 1);
    IncreasingGap(n.indexMap, p.start, p.end - 1);
    if ContiguousBehind(m, n, h) {
      forall k | h.start <= k < h.end ensures m.indexMap[k] == m.indexMap[h.start] + (k - h.start) {
        IncreasingGap(m.indexMap, h.start, k);
        IncreasingGap(n.indexMap, m.indexMap[h.start], m.indexMap[k]);
      }
    }
  }

  /** A pinyin hit is always marked approximate when it is placed in the normalised text, and the mark is
      then replaced by that of the second map alone. The mark reported is right if and only if the
      pinyin map skips nothing inside the hit, or the second map does. */
  lemma PinyinMarkRightIff(m: TextMap, n: Normalizer.Result, opt: Options, h: Hit)
    requires WithinText(h, |m.indexMap|) && GoodMap(m.indexMap, |n.indexMap|) && GoodMap(n.indexMap, |n.original|) && opt.positions
    ensures var p := PlacePinyin(m, h); var g := Place(n, opt, p);
            && p.approximate
            && ((g.approximate <==> !ContiguousBehind(m, n, h)) <==>
                Contiguous(m.indexMap, h.start, h.end) || !Contiguous(n.indexMap, p.start, p.end))
  {
    var p := PlacePinyin(m, h);
    PinyinPlacedWithin(m, h, |n.indexMap|);
    PlacedWithin(n, opt, p);
    ContiguousThroughBoth(m, n, h);
  }

  /** In "a-b", pinyin input skips the hyphen. A hit on "ab" is then reported at all three characters, and
      as exact, although one of them is not behind it. */
  lemma PinyinMarkWrong(h: Hit, opt: Options)
    requires h.start == 0 && h.end == 2 && opt.positions
    ensures var m := PinyinMap(Ascii(), AsciiWord(), "a-b");
            var g := Place(Result("a-b", "a-b", [0, 1, 2]), opt, PlacePinyin(m, h));
            && m.text == "ab" && m.indexMap == [0, 2]
            && g.start == 0 && g.end == 3 && !g.approximate
            && !ContiguousBehind(m, Result("a-b", "a-b", [0, 1, 2]), h)
  {
    SkippedHyphen();
    var m := PinyinMap(Ascii(), AsciiWord(), "a-b");
    assert m.indexMap[1] == 2;
  }

  /** What is found in "rNULsNULt" by rule "r" and by rule "rNULs" counts as one hit when places are not
      reported, although the rules differ. */
  lemma CollisionWithoutPositions(n: Normalizer.Result, opt: Options, a: Hit, b: Hit)
    requires !opt.positions && a.kind == b.kind
    requires a.ruleID == "r" && a.found == ['s', NUL, 't'] && b.ruleID == ['r', NUL, 's'] && b.found == "t"
    ensures KeyOf(Place(n, opt, a)) == KeyOf(Place(n, opt, b))
  {
    hide Itoa, MapRange;
    var x, y := a.kind + [NUL] + a.ruleID + [NUL] + a.found, b.kind + [NUL] + b.ruleID + [NUL] + b.found;
    assert x == y;
  }

  // ---------- The audit ----------

  /** The matchers, each from a text to its hits in that text. */
  datatype Matchers = Matchers(
    keyword: string -> seq<Hit>, regex: string -> seq<Hit>, domain: string -> seq<Hit>,
    homophone: string -> seq<Hit>, pinyin: string -> seq<Hit>)

  /** Every matcher reports places in the text it was given. */
  ghost predicate HitsWithin(ms: Matchers) {
    forall s, h :: h in ms.keyword(s) + ms.regex(s) + ms.domain(s) + ms.homophone(s) + ms.pinyin(s) ==> WithinText(h, |s|)
  }

  function NormalizedText(lib: Library, opt: Options, text: string): Normalizer.Result
    requires LibraryOK(lib)
  {
    if opt.normalize then
      var p := NormalForm(lib.u, Convert(text, lib.order, lib.tables.chars));
      Result(text, p.out, p.idx)
    else Result(text, text, seq(|text|, i => i))
  }

  function PlaceAllPinyin(m: TextMap, hs: seq<Hit>): seq<Hit> {
    seq(|hs|, i requires 0 <= i < |hs| => PlacePinyin(m, hs[i]))
  }

  /** All hits, with their places in the normalised text. */
  function RawHits(lib: Library, ms: Matchers, opt: Options, normalized: string): seq<Hit> {
    var m := PinyinMap(lib.u, lib.word, normalized);
    ms.keyword(normalized) + ms.regex(normalized) + ms.domain(normalized)
    + (if opt.homophone then ms.homophone(normalized) else [])
    + (if opt.pinyin then PlaceAllPinyin(m, ms.pinyin(m.text)) else [])
  }

  /** All hits, as they are reported if they are kept. */
  function AllHits(lib: Library, ms: Matchers, opt: Options, text: string): seq<Hit>
    requires LibraryOK(lib)
  {
    var n := NormalizedText(lib, opt, text);
    var raw := RawHits(lib, ms, opt, n.normalized);
    seq(|raw|, i requires 0 <= i < |raw| => Place(n, opt, raw[i]))
  }

  function Limit(opt: Options): nat {
    if opt.maxHits <= 0 then 100 else opt.maxHits
  }

  /** The hits that are reported. */
  function Reported(lib: Library, ms: Matchers, opt: Options, text: string): seq<Hit>
    requires LibraryOK(lib)
  {
    Cut(SortDedup(AllHits(lib, ms, opt, text)), Limit(opt))
  }

  /** Every hit of a matcher that is asked is accounted for where it is placed; pinyin hits are placed in
      the normalised text first. */
  ghost predicate EveryMatcherHeard(lib: Library, ms: Matchers, opt: Options, text: string, reported: seq<Hit>)
    requires LibraryOK(lib)
  {
    var n := NormalizedText(lib, opt, text);
    var m := PinyinMap(lib.u, lib.word, n.normalized);
    var max := if opt.maxHits > 0 then opt.maxHits else 100;
    && (forall h :: h in ms.keyword(n.normalized) ==> AccountedFor(reported, max, Place(n, opt, h)))
    && (forall h :: h in ms.regex(n.normalized) ==> AccountedFor(reported, max, Place(n, opt, h)))
    && (forall h :: h in ms.domain(n.normalized) ==> AccountedFor(reported, max, Place(n, opt, h)))
    && (opt.homophone ==> forall h :: h in ms.homophone(n.normalized) ==> AccountedFor(reported, max, Place(n, opt, h)))
    && (opt.pinyin ==> forall h :: h in ms.pinyin(m.text) ==> AccountedFor(reported, max, Place(n, opt, PlacePinyin(m, h))))
  }

  /** x is a placed hit of a matcher that is asked. */
  ghost predicate FromMatcher(lib: Library, ms: Matchers, opt: Options, text: string, x: Hit)
    requires LibraryOK(lib)
  {
    var n := NormalizedText(lib, opt, text);
    var m := PinyinMap(lib.u, lib.word, n.normalized);
    || (exists h :: h in ms.keyword(n.normalized) && x == Place(n, opt, h))
    || (exists h :: h in ms.regex(n.normalized) && x == Place(n, opt, h))
    || (exists h :: h in ms.domain(n.normalized) && x == Place(n, opt, h))
    || (opt.homophone && exists h :: h in ms.homophone(n.normalized) && x == Place(n, opt, h))
    || (opt.pinyin && exists h :: h in ms.pinyin(m.text) && x == Place(n, opt, PlacePinyin(m, h)))
  }

  /** By start, then by end, then the higher score first, then by type, rule and match. */
  ghost predicate InOrder(a: Hit, b: Hit) {
    || a.start < b.start
    || (a.start == b.start && a.end < b.end)
    || (a.start == b.start && a.end == b.end && a.score > b.score)
    || (a.start == b.start && a.end == b.end && a.score == b.score &&
        (|| StrLess(a.kind, b.kind)
         || (a.kind == b.kind && StrLess(a.ruleID, b.ruleID))
         || (a.kind == b.kind && a.ruleID == b.ruleID && (a.found == b.found || StrLess(a.found, b.found)))))
  }

  /** No more than the limit, which is 100 if none is given, in order, and each a hit of a matcher. */
  ghost predicate OnlyHits(lib: Library, ms: Matchers, opt: Options, text: string, reported: seq<Hit>)
    requires LibraryOK(lib)
  {
    && |reported| <= (if opt.maxHits > 0 then opt.maxHits else 100)
    && (forall i, j :: 0 <= i < j < |reported| ==> InOrder(reported[i], reported[j]))
    && (forall x :: x in reported ==> FromMatcher(lib, ms, opt, text, x))
  }

  /** All hits are the placed hits of the matchers that are asked. */
  lemma AllHitsFrom(lib: Library, ms: Matchers, opt: Options, text: string)
    requires LibraryOK(lib)
    ensures var n := NormalizedText(lib, opt, text); var m := PinyinMap(lib.u, lib.word, n.normalized); var all := AllHits(lib, ms, opt, text);
            && (forall h :: h in ms.keyword(n.normalized) ==> Place(n, opt, h) in all)
            && (forall h :: h in ms.regex(n.normalized) ==> Place(n, opt, h) in all)
            && (forall h :: h in ms.domain(n.normalized) ==> Place(n, opt, h) in all)
            && (opt.homophone ==> forall h :: h in ms.homophone(n.normalized) ==> Place(n, opt, h) in all)
            && (opt.pinyin ==> forall h :: h in ms.pinyin(m.text) ==> Place(n, opt, PlacePinyin(m, h)) in all)
            && (forall x :: x in all ==> FromMatcher(lib, ms, opt, text, x))
  {
    hide LibraryOK, NormalizedText, Place, PlacePinyin, PinyinRun;
    var n := NormalizedText(lib, opt, text);
    var m := PinyinMap(lib.u, lib.word, n.normalized);
    var raw, all := RawHits(lib, ms, opt, n.normalized), AllHits(lib, ms, opt, text);
    forall h | h in raw ensures Place(n, opt, h) in all {
      var i :| 0 <= i < |raw| && raw[i] == h;
      assert all[i] == Place(n, opt, h);
    }
    forall h | h in ms.pinyin(m.text) ensures PlacePinyin(m, h) in PlaceAllPinyin(m, ms.pinyin(m.text)) {
      var i :| 0 <= i < |ms.pinyin(m.text)| && ms.pinyin(m.text)[i] == h;
      assert PlaceAllPinyin(m, ms.pinyin(m.text))[i] == PlacePinyin(m, h);
    }
    forall x | x in all ensures FromMatcher(lib, ms, opt, text, x) {
      var i :| 0 <= i < |all| && all[i] == x;
      assert raw[i] in raw && x == Place(n, opt, raw[i]);
    }
  }

  lemma ReportedIsHeard(lib: Library, ms: Matchers, opt: Options, text: string)
    requires LibraryOK(lib)
    ensures var hits := Reported(lib, ms, opt, text);
            EveryMatcherHeard(lib, ms, opt, text, hits) && OnlyHits(lib, ms, opt, text, hits)
  {
    hide LibraryOK, NormalizedText, Place, PlacePinyin, PinyinMap, AllHits, SortDedup, AccountedFor, FromMatcher, Less, InOrder, Represented, KeyOf;
    var all, hits := AllHits(lib, ms, opt, text), Reported(lib, ms, opt, text);
    AllHitsFrom(lib, ms, opt, text);
    forall x | x in all ensures AccountedFor(hits, Limit(opt), x) {
      ReportedOrCutOff(all, Limit(opt), x);
    }
    SortDedupCorrect(all);
    forall i, j | 0 <= i < j < |hits| ensures InOrder(hits[i], hits[j]) {
      assert !HitLess()(hits[j], hits[i]);
      NotLessInOrder(hits[i], hits[j]);
    }
  }

  lemma NotLessInOrder(a: Hit, b: Hit)
    requires !Less(b, a)
    ensures InOrder(a, b)
  {
    hide StrLess;
    StrLessIsStrictTotal();
  }

  datatype AuditResult = AuditResult(matched: bool, hits: seq<Hit>, summary: Summary)

  method NormalizeInput(lib: Library, opt: Options, text: string) returns (n: Normalizer.Result)
    requires LibraryOK(lib)
    ensures n == NormalizedText(lib, opt, text)
  {
    if opt.normalize {
      n := NormalizeWithMap(lib.u, lib.tables, lib.order, text);
    } else {
      var idx: seq<nat> := [];
      for i := 0 to |text|
        invariant idx == seq(i, k => k)
      {
        idx := idx + [i];
      }
      n := Result(text, text, idx);
    }
  }

  method Match(lib: Library, ms: Matchers, opt: Options, normalized: string) returns (hits: seq<Hit>)
    ensures hits == RawHits(lib, ms, opt, normalized)
  {
    hide PlacePinyin, PinyinRun;
    hits := ms.keyword(normalized) + ms.regex(normalized) + ms.domain(normalized);
    if opt.homophone {
      hits := hits + ms.homophone(normalized);
    }
    if opt.pinyin {
      var m := NormalizePinyinWithMap(lib.u, lib.word, normalized);
      var found := ms.pinyin(m.text);
      ghost var before := hits;
      for i := 0 to |found|
        invariant hits == before + PlaceAllPinyin(m, found[..i])
      {
        assert PlaceAllPinyin(m, found[..i + 1]) == PlaceAllPinyin(m, found[..i]) + [PlacePinyin(m, found[i])];
        hits := hits + [PlacePinyin(m, found[i])];
      }
      assert found[..|found|] == found;
    }
  }

  method AuditWithOptions(lib: Library, ms: Matchers, text: string, opt: Options) returns (r: AuditResult)
    requires LibraryOK(lib)
    ensures r.hits == Reported(lib, ms, opt, text)
    ensures EveryMatcherHeard(lib, ms, opt, text, r.hits) && OnlyHits(lib, ms, opt, text, r.hits)
    ensures r.matched <==> r.hits != []
    ensures r.summary.action == ActionFor(r.hits) && IsMaxScore(r.summary.score, r.hits)
    ensures r.summary.action == ActionFor(AllHits(lib, ms, opt, text)) <==> TopIsReported(AllHits(lib, ms, opt, text), Limit(opt))
    ensures r.summary.blocks == CountAction(r.hits, "block") && r.summary.reviews == CountAction(r.hits, "review")
  {
    hide TopIsReported, Place, SortDedup, RawHits, ActionFor, IsMaxScore, CountAction, LibraryOK, NormalizedText,
         EveryMatcherHeard, OnlyHits;
    var n := NormalizeInput(lib, opt, text);
    var raw := Match(lib, ms, opt, n.normalized);
    var hits := new Hit[|raw|](i requires 0 <= i < |raw| => raw[i]);
    for i := 0 to hits.Length
      invariant forall k :: 0 <= k < i ==> hits[k] == Place(n, opt, raw[k])
      invariant forall k :: i <= k < hits.Length ==> hits[k] == raw[k]
    {
      hits[i] := Place(n, opt, hits[i]);
    }
    assert hits[..] == AllHits(lib, ms, opt, text);
    var kept := SortDedupInPlace(hits);
    var max := Limit(opt);
    if kept > max {
      assert hits[..max] == hits[..kept][..max];
      kept := max;
    }
    var summary := Summarize(hits[..kept]);
    r := AuditResult(kept > 0, hits[..kept], summary);
    ActionKeptIff(AllHits(lib, ms, opt, text), max);
    ReportedIsHeard(lib, ms, opt, text);
  }

  /** A text, audited with the hits that the keyword matcher finds in it and nothing else. */
  function KeywordsOnly(text: string, hits: seq<Hit>): Matchers {
    Matchers(s => if s == text then hits else [], s => [], s => [], s => [], s => [])
  }

  function PlainOptions(max: nat): Options {
    Options(false, false, false, false, true, max)
  }

  function KeywordHit(ruleID: string, found: string, start: int, score: int, action: string): Hit {
    Hit("keyword", ruleID, found, start, start + |found|, score, action, false, "", "")
  }

  lemma PlainHits(lib: Library, text: string, hits: seq<Hit>, max: nat)
    requires LibraryOK(lib)
    requires forall i :: 0 <= i < |hits| ==> WithinText(hits[i], |text|) && !hits[i].approximate && hits[i].notes == ""
    ensures AllHits(lib, KeywordsOnly(text, hits), PlainOptions(max), text) == hits
  {
    hide LibraryOK;
    var ms, opt := KeywordsOnly(text, hits), PlainOptions(max);
    var n := NormalizedText(lib, opt, text);
    assert RawHits(lib, ms, opt, text) == hits;
    forall i | 0 <= i < |hits| ensures Place(n, opt, hits[i]) == hits[i] {}
  }

  /** A limit of one, with a hit for review ahead of one that blocks: the text "ab" is only sent to
      review. */
  lemma BlockCutOff(lib: Library)
    requires LibraryOK(lib)
    ensures var ms := KeywordsOnly("ab", [KeywordHit("r", "a", 0, 60, "review"), KeywordHit("q", "b", 1, 90, "block")]);
            && ActionFor(Reported(lib, ms, PlainOptions(1), "ab")) == "review"
            && ActionFor(AllHits(lib, ms, PlainOptions(1), "ab")) == "block"
  {
    hide LibraryOK, KeyOf, Place, MapRange, StableSort, SortDedup, Cut;
    var a, b := KeywordHit("r", "a", 0, 60, "review"), KeywordHit("q", "b", 1, 90, "block");
    PlainHits(lib, "ab", [a, b], 1);
    CutTwo(a, b);
    assert b in [a, b];
  }

  lemma CutTwo(a: Hit, b: Hit)
    requires !Less(b, a)
    ensures Cut(SortDedup([a, b]), 1) == [a]
  {
    hide KeyOf, Less, StableSort;
    SortTwo(a, b);
    var s := [a, b];
    assert Dedup(s, 1) == [a];
    DedupStep(s, 2);
  }

  /** Two rules with one ID, one keyword and different actions: only the hit with the higher score is
      kept, so that "a" is sent to review although a rule blocks it. */
  lemma BlockDeduplicated(lib: Library)
    requires LibraryOK(lib)
    ensures var ms := KeywordsOnly("a", [KeywordHit("r", "a", 0, 90, "review"), KeywordHit("r", "a", 0, 89, "block")]);
            && ActionFor(Reported(lib, ms, PlainOptions(0), "a")) == "review"
            && ActionFor(AllHits(lib, ms, PlainOptions(0), "a")) == "block"
  {
    hide LibraryOK, Place, MapRange, Itoa, StableSort, SortDedup;
    var a, b := KeywordHit("r", "a", 0, 90, "review"), KeywordHit("r", "a", 0, 89, "block");
    PlainHits(lib, "a", [a, b], 0);
    DedupTwo(a, b);
    assert b in [a, b];
  }

  lemma DedupTwo(a: Hit, b: Hit)
    requires !Less(b, a) && KeyOf(a) == KeyOf(b)
    ensures SortDedup([a, b]) == [a]
  {
    hide KeyOf, Less, StableSort;
    SortTwo(a, b);
    var s := [a, b];
    assert Dedup(s, 1) == [a];
    DedupStep(s, 2);
  }

  lemma SortTwo(a: Hit, b: Hit)
    requires !Less(b, a)
    ensures StableSort(HitLess(), [a, b]) == [a, b]
  {
    assert [a, b][..1] == [a] && [a][..0] == [];
    assert StableSort(HitLess(), [a]) == [a];
    assert [b] == Insert(HitLess(), b, [a][1..]);
  }

  /** What is reported: sorted, no hit twice, at most the limit; and if every matcher's hits lie in the
      text it was given, every reported place lies in the original text. */
  lemma ReportedHits(lib: Library, ms: Matchers, opt: Options, text: string)
    requires LibraryOK(lib) && opt.positions
    requires HitsWithin(ms)
    ensures var hits := Reported(lib, ms, opt, text);
            && |hits| <= Limit(opt) && Sorted(HitLess(), hits)
            && (forall i, j :: 0 <= i < j < |hits| ==> KeyOf(hits[i]) != KeyOf(hits[j]))
            && (forall i :: 0 <= i < |hits| ==> WithinText(hits[i], |text|))
  {
    hide KeyOf, HitLess, SortDedup, Place, PlacePinyin, NormalizedText, LibraryOK;
    var n := NormalizedText(lib, opt, text);
    NormalizedMap(lib, opt, text);
    var raw := RawHits(lib, ms, opt, n.normalized);
    RawWithin(lib, ms, opt, n.normalized);
    var all := AllHits(lib, ms, opt, text);
    forall i | 0 <= i < |all| ensures WithinText(all[i], |text|) {
      PlacedWithin(n, opt, raw[i]);
    }
    SortDedupCorrect(all);
    var d := SortDedup(all);
    forall i | 0 <= i < |d| ensures WithinText(d[i], |text|) {
      assert d[i] in all;
    }
  }

  lemma NormalizedMap(lib: Library, opt: Options, text: string)
    requires LibraryOK(lib)
    ensures var n := NormalizedText(lib, opt, text);
            n.original == text && GoodMap(n.indexMap, |text|) && |n.indexMap| == |n.normalized|
  {
    hide Convert, TablesOK, OrderOf;
    if opt.normalize {
      ResultHasGoodMap(lib.u, lib.tables, lib.order, NormalizedText(lib, opt, text));
    }
  }

  lemma RawWithin(lib: Library, ms: Matchers, opt: Options, s: string)
    requires HitsWithin(ms)
    ensures forall i :: 0 <= i < |RawHits(lib, ms, opt, s)| ==> WithinText(RawHits(lib, ms, opt, s)[i], |s|)
  {
    hide PlacePinyin;
    var m := PinyinMap(lib.u, lib.word, s);
    PinyinRunMapped(lib.u, lib.word, s, |s|);
    var found := ms.pinyin(m.text);
    forall h | h in ms.keyword(s) || h in ms.regex(s) || h in ms.domain(s) || h in ms.homophone(s) ensures WithinText(h, |s|) {
      assert h in ms.keyword(s) + ms.regex(s) + ms.domain(s) + ms.homophone(s) + ms.pinyin(s);
    }
    forall h | h in found ensures WithinText(h, |m.text|) {
      assert h in ms.keyword(m.text) + ms.regex(m.text) + ms.domain(m.text) + ms.homophone(m.text) + ms.pinyin(m.text);
    }
    forall i | 0 <= i < |found| ensures WithinText(PlacePinyin(m, found[i]), |s|) {
      assert found[i] in found;
      PinyinPlacedWithin(m, found[i], |s|);
    }
  }
}
