/** The bundled pack generator: parsing, building, and the two validators. */
module Pack {
  import opened Text
  import opened Ordering
  import opened Wrappers
  import opened PackSpec
  import opened PackEntries

  // ---------- Parsing ----------

  method ParseGroup(lib: Lib, lim: Limits, group: string, es: seq<Entry>, records: seq<Record>)
    returns (r: Option<seq<Record>>)
    requires |records| <= lim.rules
    ensures r.Some? <==> GoodIDs(es) && |records| + |es| <= lim.rules
    ensures r.Some? ==> r.value == records + RecordsOf(lib, group, es)
    ensures r.Some? ==> forall i :: 0 <= i < |es| ==> IsRecordOf(lib, group, es[i], r.value[|records| + i])
  {
    hide IsRecordOf;
    var out := records;
    var seen: set<string> := {};
    for i := 0 to |es|
      invariant seen == set k | 0 <= k < i :: es[k].id
      invariant GoodIDs(es[..i]) && |records| + i <= lim.rules
      invariant out == records + RecordsOf(lib, group, es[..i])
    {
      if es[i].id == "" || es[i].id in seen || |out| >= lim.rules {
        return None;
      }
      seen := seen + {es[i].id};
      assert es[..i + 1][..i] == es[..i];
      out := out + [Record(group, es[i].id, BodyOf(lib, es[i].value))];
    }
    assert es[..|es|] == es;
    r := Some(out);
    RecordsAre(lib, group, es);
  }

  method CountObjectRecords(es: seq<Entry>) returns (n: Option<nat>)
    ensures n == if GoodIDs(es) then Some(|es|) else None
  {
    var seen: set<string> := {};
    for i := 0 to |es|
      invariant seen == set k | 0 <= k < i :: es[k].id
      invariant GoodIDs(es[..i])
    {
      if es[i].id == "" || es[i].id in seen {
        return None;
      }
      seen := seen + {es[i].id};
    }
    assert es[..|es|] == es;
    n := Some(|es|);
  }

  /** The groups before the i-th are accepted. */
  ghost predicate PrefixOK(lib: Lib, lim: Limits, gs: seq<Group>, i: nat, records: seq<Record>, unknown: seq<Unknown>)
    requires i <= |gs|
  {
    && (forall k :: 0 <= k < i ==> gs[k].entries.Some? && GoodIDs(gs[k].entries.value))
    && (forall j, k :: 0 <= j < k < i ==> NameOf(lib, gs[j].key) != NameOf(lib, gs[k].key))
    && records == KnownRecords(lib, gs[..i]) && unknown == UnknownGroups(lib, gs[..i]) && |records| <= lim.rules
  }

  ghost function NamesBefore(lib: Lib, gs: seq<Group>, i: nat): set<string>
    requires i <= |gs|
  {
    set k | 0 <= k < i :: NameOf(lib, gs[k].key)
  }

  method ParseRegex(lib: Lib, lim: Limits, gs: seq<Group>) returns (r: Option<Doc>)
    requires LibOK(lib)
    ensures r.Some? <==> GroupsOK(lib, lim, gs)
    ensures r.Some? ==> r.value == Doc(KnownRecords(lib, gs), UnknownGroups(lib, gs))
  {
    hide GroupsOK, PrefixOK, NamesBefore, GoodIDs, Canonical, NameOf, KnownGroup, LikeGo;
    var records: seq<Record>, unknown: seq<Unknown> := [], [];
    var seen: set<string> := {};
    PrefixNone(lib, lim, gs);
    for i := 0 to |gs|
      invariant PrefixOK(lib, lim, gs, i, records, unknown) && |records| <= lim.rules && seen == NamesBefore(lib, gs, i)
    {
      var canonical, lower := Canonical(lib, gs[i].key), Lower(lib.u, gs[i].key);
      var known := KnownGroup(canonical);
      SeenBefore(lib, gs, i);
      if lower in seen || (known && canonical in seen) {
        Refused(lib, lim, gs, i, records, unknown);
        return None;
      }
      seen := seen + {if known then canonical else lower};
      if gs[i].entries == None {
        Refused(lib, lim, gs, i, records, unknown);
        return None;
      }
      PrefixMore(lib, lim, gs, i, records, unknown);
      if !known {
        var n := CountObjectRecords(gs[i].entries.value);
        if n == None {
          Refused(lib, lim, gs, i, records, unknown);
          return None;
        }
        unknown := unknown + [Unknown(gs[i].key, n.value)];
      } else {
        var rs := ParseGroup(lib, lim, canonical, gs[i].entries.value, records);
        if rs == None {
          Refused(lib, lim, gs, i, records, unknown);
          return None;
        }
        records := rs.value;
      }
    }
    PrefixAll(lib, lim, gs, records, unknown);
    r := Some(Doc(records, unknown));
  }

  lemma PrefixNone(lib: Lib, lim: Limits, gs: seq<Group>)
    ensures PrefixOK(lib, lim, gs, 0, [], []) && NamesBefore(lib, gs, 0) == {}
  {
  }

  lemma PrefixAll(lib: Lib, lim: Limits, gs: seq<Group>, records: seq<Record>, unknown: seq<Unknown>)
    requires PrefixOK(lib, lim, gs, |gs|, records, unknown)
    ensures GroupsOK(lib, lim, gs) && records == KnownRecords(lib, gs) && unknown == UnknownGroups(lib, gs)
  {
    assert gs[..|gs|] == gs;
  }

  lemma SeenBefore(lib: Lib, gs: seq<Group>, i: nat)
    requires LibOK(lib) && i < |gs|
    ensures var key, names := gs[i].key, NamesBefore(lib, gs, i);
            (Lower(lib.u, key) in names || (KnownGroup(Canonical(lib, key)) && Canonical(lib, key) in names))
            <==> NameOf(lib, key) in names
    ensures NamesBefore(lib, gs, i + 1) == NamesBefore(lib, gs, i) + {NameOf(lib, gs[i].key)}
    ensures NameOf(lib, gs[i].key) == if KnownGroup(Canonical(lib, gs[i].key)) then Canonical(lib, gs[i].key) else Lower(lib.u, gs[i].key)
  {
    hide NameOf, Canonical, KnownGroup;
    var keys := set k | 0 <= k < i :: gs[k].key;
    assert NamesBefore(lib, gs, i) == set k | k in keys :: NameOf(lib, k);
    SeenName(lib, keys, NamesBefore(lib, gs, i), gs[i].key);
    NameCases(lib, gs[i].key);
  }

  lemma NameCases(lib: Lib, key: string)
    ensures NameOf(lib, key) == if KnownGroup(Canonical(lib, key)) then Canonical(lib, key) else Lower(lib.u, key)
  {
  }

  lemma {:induction false} RecordsGrow(lib: Lib, gs: seq<Group>, i: nat)
    requires i <= |gs|
    ensures |KnownRecords(lib, gs[..i])| <= |KnownRecords(lib, gs)|
    decreases |gs|
  {
    hide Canonical, KnownGroup;
    if i < |gs| {
      RecordsGrow(lib, gs[..|gs| - 1], i);
      assert gs[..|gs| - 1][..i] == gs[..i];
    } else {
      assert gs[..i] == gs;
    }
  }

  lemma RecordsNext(lib: Lib, gs: seq<Group>, i: nat)
    requires i < |gs| && gs[i].entries.Some?
    ensures var g, es := Canonical(lib, gs[i].key), gs[i].entries.value;
            && KnownRecords(lib, gs[..i + 1])
               == KnownRecords(lib, gs[..i]) + (if KnownGroup(g) then RecordsOf(lib, g, es) else [])
            && UnknownGroups(lib, gs[..i + 1])
               == UnknownGroups(lib, gs[..i]) + (if KnownGroup(g) then [] else [Unknown(gs[i].key, |es|)])
  {
    hide Canonical, KnownGroup;
    assert gs[..i + 1][..i] == gs[..i];
  }

  /** Each way to stop at the i-th group means that the groups are not accepted. */
  lemma Refused(lib: Lib, lim: Limits, gs: seq<Group>, i: nat, records: seq<Record>, unknown: seq<Unknown>)
    requires i < |gs| && PrefixOK(lib, lim, gs, i, records, unknown)
    requires var g, es := Canonical(lib, gs[i].key), gs[i].entries;
             || NameOf(lib, gs[i].key) in NamesBefore(lib, gs, i)
             || es == None || !GoodIDs(es.value)
             || (KnownGroup(g) && |records| + |es.value| > lim.rules)
    ensures !GroupsOK(lib, lim, gs)
  {
    hide Canonical, KnownGroup, NameOf, GoodIDs;
    if gs[i].entries.Some? {
      RecordsNext(lib, gs, i);
      RecordsGrow(lib, gs, i + 1);
    }
  }

  lemma PrefixMore(lib: Lib, lim: Limits, gs: seq<Group>, i: nat, records: seq<Record>, unknown: seq<Unknown>)
    requires i < |gs| && PrefixOK(lib, lim, gs, i, records, unknown)
    requires NameOf(lib, gs[i].key) !in NamesBefore(lib, gs, i) && gs[i].entries.Some?
    ensures var g, es := Canonical(lib, gs[i].key), gs[i].entries.value;
            && (KnownGroup(g) && GoodIDs(es) && |records| + |es| <= lim.rules ==>
                  PrefixOK(lib, lim, gs, i + 1, records + RecordsOf(lib, g, es), unknown))
            && (!KnownGroup(g) && GoodIDs(es) ==>
                  PrefixOK(lib, lim, gs, i + 1, records, unknown + [Unknown(gs[i].key, |es|)]))
  {
    hide Canonical, KnownGroup, NameOf, GoodIDs;
    RecordsNext(lib, gs, i);
  }

  function UnknownLess(): (Unknown, Unknown) -> bool {
    (a: Unknown, b: Unknown) => StrLess(a.name, b.name)
  }

  method Parse(lib: Lib, lim: Limits, tops: seq<Top>) returns (r: Option<Doc>)
    requires LibOK(lib)
    ensures r.Some? <==> DocumentOK(lib, lim, tops)
    ensures r.Some? ==>
              && r.value.records == KnownRecords(lib, RegexOf(lib, lim, tops))
              && r.value.unknown == StableSort(UnknownLess(), UnknownGroups(lib, RegexOf(lib, lim, tops)))
  {
    hide GroupsOK, KnownRecords, UnknownGroups, LikeGo;
    var doc: Option<Doc> := None;
    ghost var at := 0;
    var seen: set<string> := {};
    for i := 0 to |tops|
      invariant seen == set k | 0 <= k < i :: Lower(lib.u, tops[k].key)
      invariant forall j, k :: 0 <= j < k < i ==> Lower(lib.u, tops[j].key) != Lower(lib.u, tops[k].key)
      invariant doc == None ==> forall k :: 0 <= k < i ==> !IsRegex(lib, tops[k])
      invariant doc.Some? ==> 0 <= at < i && IsRegex(lib, tops[at]) && tops[at].regex.Some? && GroupsOK(lib, lim, tops[at].regex.value)
                              && doc.value == Doc(KnownRecords(lib, tops[at].regex.value), UnknownGroups(lib, tops[at].regex.value))
    {
      var lower := Lower(lib.u, tops[i].key);
      if lower in seen {
        return None;
      }
      seen := seen + {lower};
      if lower == "regex" {
        if tops[i].regex == None {
          return None;
        }
        doc := ParseRegex(lib, lim, tops[i].regex.value);
        if doc == None {
          return None;
        }
        at := i;
      }
    }
    if doc == None {
      return None;
    }
    OneRegex(lib, lim, tops, at);
    r := Some(Doc(doc.value.records, StableSort(UnknownLess(), doc.value.unknown)));
  }

  lemma OneRegex(lib: Lib, lim: Limits, tops: seq<Top>, at: nat)
    requires forall j, k :: 0 <= j < k < |tops| ==> Lower(lib.u, tops[j].key) != Lower(lib.u, tops[k].key)
    requires at < |tops| && IsRegex(lib, tops[at]) && tops[at].regex.Some? && GroupsOK(lib, lim, tops[at].regex.value)
    ensures DocumentOK(lib, lim, tops) && RegexOf(lib, lim, tops) == tops[at].regex.value
  {
    hide GroupsOK;
    forall i | 0 <= i < |tops| && IsRegex(lib, tops[i]) ensures i == at {}
  }

  // ---------- The unknown groups of the report ----------

  lemma {:induction false} SumInsert(x: Unknown, s: seq<Unknown>)
    ensures SumFront(Insert(UnknownLess(), x, s)) == SumFront(s) + x.count
  {
    if s == [] {
      assert SumFront([x]) == x.count;
    } else if UnknownLess()(x, s[0]) {
      assert ([x] + s)[1..] == s;
    } else {
      SumInsert(x, s[1..]);
      assert ([s[0]] + Insert(UnknownLess(), x, s[1..]))[1..] == Insert(UnknownLess(), x, s[1..]);
    }
  }

  /** UnknownSum, from the front. */
  ghost function SumFront(us: seq<Unknown>): nat {
    if us == [] then 0 else us[0].count + SumFront(us[1..])
  }

  lemma {:induction false} SumFrontIsSum(us: seq<Unknown>)
    ensures SumFront(us) == UnknownSum(us)
  {
    if us != [] {
      var n := |us| - 1;
      SumFrontIsSum(us[..n]);
      SumFrontSnoc(us[..n], us[n]);
      assert us == us[..n] + [us[n]];
    }
  }

  lemma {:induction false} SumFrontSnoc(us: seq<Unknown>, x: Unknown)
    ensures SumFront(us + [x]) == SumFront(us) + x.count
  {
    if us != [] {
      SumFrontSnoc(us[1..], x);
      assert (us + [x])[1..] == us[1..] + [x];
    }
  }

  lemma {:induction false} SumSorted(us: seq<Unknown>)
    ensures UnknownSum(StableSort(UnknownLess(), us)) == UnknownSum(us)
  {
    if us != [] {
      var init, last := us[..|us| - 1], us[|us| - 1];
      SumSorted(init);
      SumInsert(last, StableSort(UnknownLess(), init));
      SumFrontIsSum(StableSort(UnknownLess(), init));
      SumFrontIsSum(StableSort(UnknownLess(), us));
    }
  }

  lemma {:induction false} InsertNames(x: Unknown, s: seq<Unknown>)
    requires DistinctNames(s) && forall i :: 0 <= i < |s| ==> s[i].name != x.name
    ensures DistinctNames(Insert(UnknownLess(), x, s))
  {
    if s != [] && !UnknownLess()(x, s[0]) {
      InsertNames(x, s[1..]);
      var t := Insert(UnknownLess(), x, s[1..]);
      forall i | 0 <= i < |t| ensures t[i].name != s[0].name {
        InsertMember(UnknownLess(), x, s[1..], t[i]);
      }
      hide StrLess;
      assert Insert(UnknownLess(), x, s) == [s[0]] + t;
    }
  }

  ghost predicate DistinctNames(us: seq<Unknown>) {
    forall i, j :: 0 <= i < j < |us| ==> us[i].name != us[j].name
  }

  lemma {:induction false} SortedNames(us: seq<Unknown>)
    requires DistinctNames(us)
    ensures var s := StableSort(UnknownLess(), us); DistinctNames(s) && forall x :: x in s <==> x in us
  {
    if us != [] {
      var init, last := us[..|us| - 1], us[|us| - 1];
      SortedNames(init);
      var t := StableSort(UnknownLess(), init);
      forall x ensures x in Insert(UnknownLess(), last, t) <==> x in us {
        InsertMember(UnknownLess(), last, t, x);
        assert us == init + [last];
      }
      forall i | 0 <= i < |t| ensures t[i].name != last.name { assert t[i] in init; }
      InsertNames(last, t);
    }
  }

  lemma {:induction false} UnknownNames(lib: Lib, gs: seq<Group>)
    requires forall i, j :: 0 <= i < j < |gs| ==> NameOf(lib, gs[i].key) != NameOf(lib, gs[j].key)
    ensures DistinctNames(UnknownGroups(lib, gs))
    ensures forall x :: x in UnknownGroups(lib, gs) ==>
                          exists i :: 0 <= i < |gs| && gs[i].key == x.name && !KnownGroup(Canonical(lib, gs[i].key))
  {
    hide KnownGroup, Canonical;
    if gs != [] {
      var g, init := gs[|gs| - 1], gs[..|gs| - 1];
      UnknownNames(lib, init);
      var us := UnknownGroups(lib, init);
      forall x | x in us
        ensures x.name != g.key || KnownGroup(Canonical(lib, g.key))
        ensures exists i :: 0 <= i < |gs| && gs[i].key == x.name && !KnownGroup(Canonical(lib, gs[i].key))
      {
        var i :| 0 <= i < |init| && init[i].key == x.name && !KnownGroup(Canonical(lib, init[i].key));
        assert gs[i] == init[i];
      }
    }
  }

  // ---------- Building ----------

  function IdentOf(dataset: string, group: string, id: string): string {
    dataset + "/" + group + "/" + id
  }

  /** Only the same group and ID give the same identity, or the same key to be hashed. */
  lemma IdentInjective(dataset: string, g: string, i: string, h: string, j: string)
    requires KnownGroup(g) && KnownGroup(h) && IdentOf(dataset, g, i) == IdentOf(dataset, h, j)
    ensures g == h && i == j
  {
    var s := IdentOf(dataset, g, i);
    assert g + ['/'] + i == s[|dataset| + 1..];
    assert h + ['/'] + j == s[|dataset| + 1..];
    SplitSame(g, h, i, j, '/');
  }

  lemma StableKeyTail(lib: Lib, dataset: string, g: string, i: string, n: nat)
    ensures StableKey(lib, dataset, g, i, n)[|dataset| + 1..] == g + [':'] + (i + (":" + lib.decimal(n)))
  {
  }

  lemma StableKeyInjective(lib: Lib, dataset: string, g: string, i: string, h: string, j: string, n: nat)
    requires KnownGroup(g) && KnownGroup(h) && StableKey(lib, dataset, g, i, n) == StableKey(lib, dataset, h, j, n)
    ensures g == h && i == j
  {
    var end := ":" + lib.decimal(n);
    StableKeyTail(lib, dataset, g, i, n);
    StableKeyTail(lib, dataset, h, j, n);
    hide StableKey;
    SplitSame(g, h, i + end, j + end, ':');
    assert i == (i + end)[..|i|] && j == (j + end)[..|j|];
  }

  datatype Build = Build(counts: Counts, rules: seq<PackRule>, failures: seq<Failure>, details: seq<Detail>,
                         seenID: map<string, nat>, seenRegex: map<string, nat>)

  ghost predicate KnownGroups(rs: seq<Record>) {
    forall i :: 0 <= i < |rs| ==> KnownGroup(rs[i].group)
  }

  /** What the loop has counted after the records rs, apart from the aggregates. */
  ghost predicate BuildOf(lib: Lib, lim: Limits, dataset: string, unknown: nat, rs: seq<Record>, b: Build) {
    && KnownGroups(rs) && b.rules == RulesFor(lib, lim, dataset, rs)
    && b.failures == FailuresOf(lib, b.rules) && b.details == DetailsFor(dataset, rs)
    && b.counts.total == unknown + |rs| && b.counts.unknown == unknown
    && b.counts.empty == CountBlank(rs) && b.counts.malformed == |b.details|
    && b.counts.duplicateIdentities == 0 && IDsSeen(dataset, rs, b.seenID)
    && RulesCounted(b.counts, b.rules, b.seenRegex)
  }

  ghost predicate RulesCounted(c: Counts, rules: seq<PackRule>, seenRegex: map<string, nat>) {
    && c.parsed == |rules| && c.imported == |rules|
    && seenRegex.Keys == Regexes(rules) && (forall p :: p in seenRegex ==> seenRegex[p] > 0)
    && c.duplicateRegex == |rules| - |seenRegex.Keys|
    && c.compatible == Count(Compatible(), rules) && c.incompatible == Count(Incompatible(), rules)
    && c.disabled == Count(Disabled(), rules)
  }

  /** Each identity has been seen at most once. */
  ghost predicate IDsSeen(dataset: string, rs: seq<Record>, seenID: map<string, nat>) {
    forall s :: s in seenID ==> exists i :: 0 <= i < |rs| && s == IdentOf(dataset, rs[i].group, rs[i].id)
  }

  lemma FirstTime(dataset: string, rs: seq<Record>, r: Record, seenID: map<string, nat>)
    requires KnownGroups(rs) && KnownGroup(r.group) && DistinctRecords(rs + [r]) && IDsSeen(dataset, rs, seenID)
    ensures IdentOf(dataset, r.group, r.id) !in seenID
    ensures IDsSeen(dataset, rs + [r], seenID) && IDsSeen(dataset, rs + [r], seenID[IdentOf(dataset, r.group, r.id) := 1])
  {
    hide IdentOf, KnownGroup;
    forall s | s in seenID
      ensures s != IdentOf(dataset, r.group, r.id)
      ensures exists i :: 0 <= i < |rs + [r]| && s == IdentOf(dataset, (rs + [r])[i].group, (rs + [r])[i].id)
    {
      var i :| 0 <= i < |rs| && s == IdentOf(dataset, rs[i].group, rs[i].id);
      assert (rs + [r])[i] == rs[i] && (rs + [r])[|rs|] == r;
      if s == IdentOf(dataset, r.group, r.id) {
        IdentInjective(dataset, rs[i].group, rs[i].id, r.group, r.id);
        assert false;
      }
    }
    assert (rs + [r])[|rs|] == r;
  }

  lemma RulesForSnoc(lib: Lib, lim: Limits, dataset: string, rs: seq<Record>, r: Record)
    requires KnownGroups(rs) && KnownGroup(r.group)
    ensures KnownGroups(rs + [r])
    ensures RulesFor(lib, lim, dataset, rs + [r])
            == RulesFor(lib, lim, dataset, rs) + if r.body.Pattern? then [RuleFor(lib, lim, dataset, r)] else []
    ensures CountBlank(rs + [r]) == CountBlank(rs) + if r.body.Blank? then 1 else 0
    ensures DetailsFor(dataset, rs + [r]) == DetailsFor(dataset, rs)
            + if r.body.Malformed? then [Detail(dataset, r.group, r.id, "value must be a string or null", r.body.valueType)] else []
  {
    hide KnownGroup, RuleFor;
    assert (rs + [r])[..|rs|] == rs;
  }

  lemma FailuresSnoc(lib: Lib, rules: seq<PackRule>, r: PackRule)
    ensures FailuresOf(lib, rules + [r]) == FailuresOf(lib, rules) + if r.compatible then [] else [FailureOf(lib, r)]
  {
  }

  /** One more rule: the counters, updated as the loop does, are still right. */
  lemma RuleCounted(c: Counts, d: Counts, rules: seq<PackRule>, r: PackRule, seenRegex: map<string, nat>)
    requires RulesCounted(c, rules, seenRegex)
    requires d.parsed == c.parsed + 1 && d.imported == c.imported + 1
    requires d.duplicateRegex == c.duplicateRegex + if r.regex in seenRegex then 1 else 0
    requires d.compatible == c.compatible + if r.compatible then 1 else 0
    requires d.incompatible == c.incompatible + if r.compatible then 0 else 1
    requires d.disabled == c.disabled + if r.enabled then 0 else 1
    ensures RulesCounted(d, rules + [r], seenRegex[r.regex := (if r.regex in seenRegex then seenRegex[r.regex] else 0) + 1])
  {
    hide Count, Regexes;
    CountSnoc(Compatible(), rules, r);
    CountSnoc(Incompatible(), rules, r);
    CountSnoc(Disabled(), rules, r);
    RegexesSnoc(rules, r);
    var after := seenRegex[r.regex := (if r.regex in seenRegex then seenRegex[r.regex] else 0) + 1];
    assert after.Keys == seenRegex.Keys + {r.regex};
  }

  function Zero(): Counts {
    Counts(0, 0, 0, 0, 0, 0, 0, 0, 0, 0, 0, [], [], [])
  }

  /** The loop of BuildPack over the arranged records. */
  method BuildRules(lib: Lib, lim: Limits, dataset: string, unknown: nat, rs: seq<Record>) returns (b: Build)
    requires KnownGroups(rs) && DistinctRecords(rs)
    ensures BuildOf(lib, lim, dataset, unknown, rs, b)
  {
    hide BuildOf, IdentOf, KnownGroup, KnownGroups, RuleFor, StableID, ErrorText;
    b := Build(Zero().(total := unknown, unknown := unknown), [], [], [], map[], map[]);
    BuildNone(lib, lim, dataset, unknown, b);
    for i := 0 to |rs|
      invariant BuildOf(lib, lim, dataset, unknown, rs[..i], b)
    {
      ghost var was := b;
      var r := rs[i];
      assert rs[..i + 1] == rs[..i] + [r];
      KnownAt(rs, i);
      b := b.(counts := b.counts.(total := b.counts.total + 1));
      if r.body.Blank? {
        b := b.(counts := b.counts.(empty := b.counts.empty + 1));
      } else if r.body.Malformed? {
        b := b.(counts := b.counts.(malformed := b.counts.malformed + 1),
                details := b.details + [Detail(dataset, r.group, r.id, "value must be a string or null", r.body.valueType)]);
      } else {
        b := BuildRule(lib, lim, dataset, r, b);
      }
      BuildMore(lib, lim, dataset, unknown, rs[..i], r, was, b);
    }
    assert rs[..|rs|] == rs;
  }

  lemma KnownAt(rs: seq<Record>, i: nat)
    requires KnownGroups(rs) && i < |rs|
    ensures KnownGroup(rs[i].group) && KnownGroups(rs[..i])
  {
  }

  lemma BuildNone(lib: Lib, lim: Limits, dataset: string, unknown: nat, b: Build)
    requires b == Build(Zero().(total := unknown, unknown := unknown), [], [], [], map[], map[])
    ensures BuildOf(lib, lim, dataset, unknown, [], b)
  {
  }

  /** What the loop's body does with a pattern. */
  method BuildRule(lib: Lib, lim: Limits, dataset: string, r: Record, b: Build) returns (b': Build)
    requires KnownGroup(r.group) && r.body.Pattern?
    ensures RuleAdded(lib, lim, dataset, r, b, b')
  {
    hide KnownGroup, StableID, MappingOf, StableKey;
    var p := r.body.regex;
    var c := b.counts.(parsed := b.counts.parsed + 1, imported := b.counts.imported + 1);
    var ident := IdentOf(dataset, r.group, r.id);
    var n := (if ident in b.seenID then b.seenID[ident] else 0) + 1;
    var seenID := b.seenID[ident := n];
    if n > 1 {
      c := c.(duplicateIdentities := c.duplicateIdentities + 1);
    }
    var times := if p in b.seenRegex then b.seenRegex[p] else 0;
    if times > 0 {
      c := c.(duplicateRegex := c.duplicateRegex + 1);
    }
    var m, id := MappingOf(r.group), StableID(lib, dataset, r.group, r.id, n);
    var error, hint := "", "";
    if lib.bytes(p) > lim.patternBytes {
      error, hint := "pattern exceeds size limit", "invalid_syntax";
    } else if !lib.compiles(p) {
      error, hint := "error parsing regexp: " + lib.errorDetail(p), lib.hint(p);
    }
    var rule := PackRule(id, PROVIDER, dataset, r.group, r.id, p, "regex", m.category, "high", m.action, 90, "bundled:netease",
                         TagsOf(dataset, r.group), "NetEase bundled " + r.group + " regex", m.enabled, m.behaviour,
                         error == "", error, hint, NOT_CHECKED);
    var failures := b.failures;
    if rule.compatible {
      c := c.(compatible := c.compatible + 1);
    } else {
      c := c.(incompatible := c.incompatible + 1);
      failures := failures + [FailureOf(lib, rule)];
    }
    if !rule.enabled {
      c := c.(disabled := c.disabled + 1);
    }
    b' := Build(c, b.rules + [rule], failures, b.details, seenID, b.seenRegex[p := times + 1]);
  }

  /** One rule has been added; it is the record's own if its identity is new. */
  ghost predicate RuleAdded(lib: Lib, lim: Limits, dataset: string, r: Record, b: Build, b': Build)
    requires KnownGroup(r.group) && r.body.Pattern?
  {
    var rule, c, ident := RuleFor(lib, lim, dataset, r), b.counts, IdentOf(dataset, r.group, r.id);
    && (forall p :: p in b.seenRegex ==> b.seenRegex[p] > 0) && ident !in b.seenID ==>
      && b'.rules == b.rules + [rule] && b'.details == b.details
      && b'.failures == b.failures + (if rule.compatible then [] else [FailureOf(lib, rule)])
      && b'.seenID == b.seenID[ident := 1]
      && b'.seenRegex == b.seenRegex[rule.regex := (if rule.regex in b.seenRegex then b.seenRegex[rule.regex] else 0) + 1]
      && b'.counts == c.(parsed := c.parsed + 1, imported := c.imported + 1,
                         duplicateRegex := c.duplicateRegex + (if rule.regex in b.seenRegex then 1 else 0),
                         compatible := c.compatible + (if rule.compatible then 1 else 0),
                         incompatible := c.incompatible + (if rule.compatible then 0 else 1),
                         disabled := c.disabled + (if rule.enabled then 0 else 1))
  }

  lemma BuildMore(lib: Lib, lim: Limits, dataset: string, unknown: nat, rs: seq<Record>, r: Record, b: Build, b': Build)
    requires BuildOf(lib, lim, dataset, unknown, rs, b) && DistinctRecords(rs + [r]) && KnownGroup(r.group)
    requires var t := b.(counts := b.counts.(total := b.counts.total + 1));
             match r.body {
               case Blank => b' == t.(counts := t.counts.(empty := t.counts.empty + 1))
               case Malformed(v) =>
                 b' == t.(counts := t.counts.(malformed := t.counts.malformed + 1),
                          details := t.details + [Detail(dataset, r.group, r.id, "value must be a string or null", v)])
               case Pattern(_) => RuleAdded(lib, lim, dataset, r, t, b')
             }
    ensures BuildOf(lib, lim, dataset, unknown, rs + [r], b')
  {
    hide KnownGroup, KnownGroups, RuleFor, IdentOf, RulesFor, FailuresOf, DetailsFor, CountBlank, IDsSeen, Count, Regexes, DistinctRecords;
    RulesForSnoc(lib, lim, dataset, rs, r);
    FirstTime(dataset, rs, r, b.seenID);
    if r.body.Pattern? {
      var rule := RuleFor(lib, lim, dataset, r);
      FailuresSnoc(lib, b.rules, rule);
      RuleCounted(b.counts, b'.counts, b.rules, rule, b.seenRegex);
    }
  }

  // ---------- Aggregates ----------

  ghost predicate GroupTally(m: map<string, nat>, rs: seq<PackRule>) {
    forall g :: Get(m, g) == Count(InGroup(g), rs)
  }

  ghost predicate StatusTally(m: map<string, nat>, rs: seq<PackRule>) {
    forall s :: Get(m, s) == Count(HasStatus(s), rs)
  }

  lemma TallyNone(zeros: map<string, nat>)
    requires forall g :: g in zeros ==> zeros[g] == 0
    ensures GroupTally(zeros, []) && StatusTally(map[], [])
  {
  }

  lemma TallyMore(group: map<string, nat>, status: map<string, nat>, rs: seq<PackRule>, r: PackRule)
    ensures GroupTally(group, rs) ==> GroupTally(group[r.group := Get(group, r.group) + 1], rs + [r])
    ensures StatusTally(status, rs) ==> StatusTally(status[r.pcre2 := Get(status, r.pcre2) + 1], rs + [r])
  {
    hide Count;
    forall f { CountSnoc(f, rs, r); }
  }

  method GroupNameCounts(m: map<string, nat>, ghost rs: seq<PackRule>) returns (out: seq<NameCount>)
    requires GroupTally(m, rs)
    ensures out == GroupCounts(rs)
  {
    out := [];
    for i := 0 to |GROUPS|
      invariant out == GroupCounts(rs)[..i]
    {
      out := out + [NameCount(GROUPS[i], Get(m, GROUPS[i]))];
    }
  }

  method StatusNameCounts(m: map<string, nat>, ghost rs: seq<PackRule>) returns (out: seq<NameCount>)
    requires StatusTally(m, rs)
    ensures out == StatusCounts(rs)
  {
    out := [NameCount(NOT_CHECKED, Get(m, NOT_CHECKED))];
    if Get(m, PCRE2_COMPATIBLE) > 0 {
      out := out + [NameCount(PCRE2_COMPATIBLE, Get(m, PCRE2_COMPATIBLE))];
    }
    if Get(m, PCRE2_INCOMPATIBLE) > 0 {
      out := out + [NameCount(PCRE2_INCOMPATIBLE, Get(m, PCRE2_INCOMPATIBLE))];
    }
  }

  /** groupCounts and statusCounts. */
  method Aggregates(rs: seq<PackRule>) returns (byGroup: seq<NameCount>, pcre2: seq<NameCount>)
    ensures byGroup == GroupCounts(rs) && pcre2 == StatusCounts(rs)
  {
    hide GroupTally, StatusTally, GroupCounts, StatusCounts;
    var group: map<string, nat>, status: map<string, nat> := map g | g in GROUPS :: 0, map[];
    TallyNone(group);
    for i := 0 to |rs|
      invariant GroupTally(group, rs[..i]) && StatusTally(status, rs[..i])
    {
      assert rs[..i + 1] == rs[..i] + [rs[i]];
      TallyMore(group, status, rs[..i], rs[i]);
      group := group[rs[i].group := Get(group, rs[i].group) + 1];
      status := status[rs[i].pcre2 := Get(status, rs[i].pcre2) + 1];
    }
    assert rs[..|rs|] == rs;
    byGroup := GroupNameCounts(group, rs);
    pcre2 := StatusNameCounts(status, rs);
  }

  // ---------- Validating a pack ----------

  ghost predicate RulesOK(lib: Lib, lim: Limits, h: Header, rs: seq<PackRule>) {
    (forall i :: 0 <= i < |rs| ==> RuleOK(lib, lim, h, rs[i])) && DistinctRuleIDs(rs)
  }

  datatype Recount = Recount(counts: Counts, seen: map<string, nat>, group: map<string, nat>, status: map<string, nat>)

  ghost predicate RecountOf(rs: seq<PackRule>, t: Recount) {
    RulesCounted(t.counts, rs, t.seen) && GroupTally(t.group, rs) && StatusTally(t.status, rs)
  }

  /** The counting in ValidatePack's loop. */
  method CountRule(ghost rs: seq<PackRule>, r: PackRule, t: Recount) returns (t': Recount)
    requires RecountOf(rs, t)
    ensures RecountOf(rs + [r], t')
  {
    hide RulesCounted, GroupTally, StatusTally;
    var c := t.counts;
    c := c.(imported := c.imported + 1, parsed := c.parsed + 1);
    if r.compatible {
      c := c.(compatible := c.compatible + 1);
    } else {
      c := c.(incompatible := c.incompatible + 1);
    }
    if !r.enabled {
      c := c.(disabled := c.disabled + 1);
    }
    var seen := t.seen[r.regex := Get(t.seen, r.regex) + 1];
    MoreThanOnce(t.counts, rs, t.seen, r.regex);
    if seen[r.regex] > 1 {
      c := c.(duplicateRegex := c.duplicateRegex + 1);
    }
    RuleCounted(t.counts, c, rs, r, t.seen);
    TallyMore(t.group, t.status, rs, r);
    t' := Recount(c, seen, t.group[r.group := Get(t.group, r.group) + 1], t.status[r.pcre2 := Get(t.status, r.pcre2) + 1]);
  }

  /** The rules of a pack, checked and counted again. */
  method RecountRules(lib: Lib, lim: Limits, h: Header, rs: seq<PackRule>) returns (r: Option<Counts>)
    ensures r.Some? <==> RulesOK(lib, lim, h, rs)
    ensures r.Some? ==> CountsMatch(r.value, h.dataset, rs)
  {
    hide RuleOK, RecountOf, GroupCounts, StatusCounts;
    var ids: set<string> := {};
    var t := Recount(Zero(), map[], map g | g in GROUPS :: 0, map[]);
    NoneCounted(t);
    for i := 0 to |rs|
      invariant ids == set k | 0 <= k < i :: rs[k].id
      invariant RulesOK(lib, lim, h, rs[..i])
      invariant RecountOf(rs[..i], t)
    {
      if !RuleOK(lib, lim, h, rs[i]) || rs[i].id in ids {
        return None;
      }
      ids := ids + {rs[i].id};
      assert rs[..i + 1] == rs[..i] + [rs[i]];
      t := CountRule(rs[..i], rs[i], t);
    }
    assert rs[..|rs|] == rs;
    var c := FinishCounts(h, rs, t);
    r := Some(c);
  }

  method FinishCounts(h: Header, rs: seq<PackRule>, t: Recount) returns (c: Counts)
    requires RecountOf(rs, t)
    ensures CountsMatch(c, h.dataset, rs)
  {
    hide GroupTally, StatusTally, GroupCounts, StatusCounts;
    var byGroup := GroupNameCounts(t.group, rs);
    var pcre2 := StatusNameCounts(t.status, rs);
    c := t.counts.(byDataset := [NameCount(h.dataset, |rs|)], byGroup := byGroup, pcre2 := pcre2);
  }

  lemma NoneCounted(t: Recount)
    requires t == Recount(Zero(), map[], map g | g in GROUPS :: 0, map[])
    ensures RecountOf([], t)
  {
    hide GroupTally, StatusTally;
    TallyNone(t.group);
  }

  lemma MoreThanOnce(c: Counts, rs: seq<PackRule>, seen: map<string, nat>, p: string)
    requires RulesCounted(c, rs, seen)
    ensures Get(seen, p) + 1 > 1 <==> p in seen
  {
  }

  /** ValidatePack accepts exactly the packs whose counts follow from their rules. */
  method ValidatePack(lib: Lib, lim: Limits, p: Pack) returns (ok: bool)
    ensures ok <==> PackOK(lib, lim, p)
  {
    hide HeaderOK, RuleOK, DistinctRuleIDs, GroupCounts, StatusCounts, Regexes, Count;
    if !HeaderOK(lib, p.header) || p.counts.duplicateIdentities != 0 || |p.rules| > lim.rules {
      return false;
    }
    var c := RecountRules(lib, lim, p.header, p.rules);
    if c == None {
      return false;
    }
    var d := c.value;
    if p.counts.total != d.imported + p.counts.empty + p.counts.malformed + p.counts.unknown {
      return false;
    }
    if p.counts.parsed != d.parsed || p.counts.imported != d.imported || p.counts.duplicateRegex != d.duplicateRegex
       || p.counts.compatible != d.compatible || p.counts.incompatible != d.incompatible || p.counts.disabled != d.disabled {
      return false;
    }
    ok := p.counts.byDataset == d.byDataset && p.counts.byGroup == d.byGroup && p.counts.pcre2 == d.pcre2;
  }

  // ---------- Validating a report ----------

  method CheckUnknown(us: seq<Unknown>, records: nat) returns (ok: bool)
    ensures ok <==> UnknownOK(us) && UnknownSum(us) == records
  {
    var sum := 0;
    var seen: set<string> := {};
    for i := 0 to |us|
      invariant seen == set k | 0 <= k < i :: us[k].name
      invariant UnknownOK(us[..i]) && sum == UnknownSum(us[..i])
    {
      if us[i].name == "" || us[i].name in seen {
        return false;
      }
      seen := seen + {us[i].name};
      assert us[..i + 1][..i] == us[..i];
      sum := sum + us[i].count;
    }
    assert us[..|us|] == us;
    ok := sum == records;
  }

  method CheckDetails(dataset: string, ds: seq<Detail>) returns (ok: bool)
    ensures ok <==> forall i :: 0 <= i < |ds| ==> DetailOK(dataset, ds[i])
  {
    for i := 0 to |ds|
      invariant forall k :: 0 <= k < i ==> DetailOK(dataset, ds[k])
    {
      if !DetailOK(dataset, ds[i]) {
        return false;
      }
    }
    ok := true;
  }

  /** The failures by rule ID. */
  ghost predicate FailureMap(fs: seq<Failure>, m: map<string, Failure>) {
    && (forall k :: 0 <= k < |fs| ==> fs[k].ruleID != "" && fs[k].ruleID in m && m[fs[k].ruleID] == fs[k])
    && (forall id :: id in m ==> m[id] in fs && m[id].ruleID == id)
    && (forall j, k :: 0 <= j < k < |fs| ==> fs[j].ruleID != fs[k].ruleID)
  }

  lemma NoFailures()
    ensures FailureMap([], map[])
  {
  }

  lemma MoreFailures(fs: seq<Failure>, i: nat, m: map<string, Failure>)
    requires i < |fs| && fs[i].ruleID != "" && FailureMap(fs[..i], m)
    ensures fs[i].ruleID in m ==> exists j :: 0 <= j < i && fs[j].ruleID == fs[i].ruleID
    ensures fs[i].ruleID !in m ==> FailureMap(fs[..i + 1], m[fs[i].ruleID := fs[i]])
  {
    assert fs[..i + 1] == fs[..i] + [fs[i]];
    if fs[i].ruleID in m {
      var j :| 0 <= j < |fs[..i]| && fs[..i][j] == m[fs[i].ruleID];
      assert fs[j].ruleID == fs[i].ruleID;
    }
  }

  method IndexFailures(fs: seq<Failure>) returns (m: Option<map<string, Failure>>)
    ensures m.Some? ==> FailureMap(fs, m.value)
    ensures m == None ==> (exists k :: 0 <= k < |fs| && fs[k].ruleID == "") || exists j, k :: 0 <= j < k < |fs| && fs[j].ruleID == fs[k].ruleID
  {
    hide FailureMap;
    var failures: map<string, Failure> := map[];
    NoFailures();
    for i := 0 to |fs|
      invariant FailureMap(fs[..i], failures)
    {
      if fs[i].ruleID == "" {
        return None;
      }
      MoreFailures(fs, i, failures);
      if fs[i].ruleID in failures {
        return None;
      }
      failures := failures[fs[i].ruleID := fs[i]];
    }
    assert fs[..|fs|] == fs;
    m := Some(failures);
  }

  lemma MatchFailure(lib: Lib, fs: seq<Failure>, m: map<string, Failure>, r: PackRule)
    requires FailureMap(fs, m)
    ensures r.id in m <==> exists i :: 0 <= i < |fs| && fs[i].ruleID == r.id
    ensures FailureOf(lib, r) in fs <==> r.id in m && m[r.id] == FailureOf(lib, r)
  {
  }

  /** Each of the rules has the failure it should. */
  ghost predicate Matched(lib: Lib, fs: seq<Failure>, rs: seq<PackRule>) {
    && (forall k :: 0 <= k < |rs| && rs[k].compatible ==> forall i :: 0 <= i < |fs| ==> fs[i].ruleID != rs[k].id)
    && (forall k :: 0 <= k < |rs| && !rs[k].compatible ==> FailureOf(lib, rs[k]) in fs)
  }

  lemma MatchedMore(lib: Lib, fs: seq<Failure>, m: map<string, Failure>, rs: seq<PackRule>, k: nat)
    requires FailureMap(fs, m) && k < |rs|
    ensures Matched(lib, fs, rs[..k + 1]) <==>
            && Matched(lib, fs, rs[..k])
            && if rs[k].compatible then rs[k].id !in m else rs[k].id in m && m[rs[k].id] == FailureOf(lib, rs[k])
    ensures Matched(lib, fs, rs) ==> Matched(lib, fs, rs[..k + 1])
  {
    hide FailureMap, FailureOf;
    MatchFailure(lib, fs, m, rs[k]);
    assert rs[..k + 1] == rs[..k] + [rs[k]];
  }

  method CheckFailures(lib: Lib, fs: seq<Failure>, rs: seq<PackRule>) returns (ok: bool)
    ensures ok <==> FailuresOK(lib, fs, rs)
  {
    var index := IndexFailures(fs);
    if index == None {
      return false;
    }
    ok := CheckRules(lib, fs, index.value, rs);
    FailuresOKParts(lib, fs, index.value, rs);
  }

  lemma FailuresOKParts(lib: Lib, fs: seq<Failure>, m: map<string, Failure>, rs: seq<PackRule>)
    requires FailureMap(fs, m)
    ensures FailuresOK(lib, fs, rs) <==> Matched(lib, fs, rs) && Count(Incompatible(), rs) == |fs|
  {
  }

  method CheckRules(lib: Lib, fs: seq<Failure>, failures: map<string, Failure>, rs: seq<PackRule>) returns (ok: bool)
    requires FailureMap(fs, failures)
    ensures ok <==> Matched(lib, fs, rs) && Count(Incompatible(), rs) == |fs|
  {
    hide FailureMap, FailureOf, Count, Matched;
    var bad := 0;
    CountNone();
    NoneMatched(lib, fs);
    for k := 0 to |rs|
      invariant bad == Count(Incompatible(), rs[..k]) && Matched(lib, fs, rs[..k])
    {
      var r := rs[k];
      assert rs[..k + 1] == rs[..k] + [r];
      CountSnoc(Incompatible(), rs[..k], r);
      MatchedMore(lib, fs, failures, rs, k);
      if r.compatible {
        if r.id in failures {
          return false;
        }
      } else {
        bad := bad + 1;
        if r.id !in failures || failures[r.id] != FailureOf(lib, r) {
          return false;
        }
      }
    }
    assert rs[..|rs|] == rs;
    ok := bad == |fs|;
  }

  lemma NoneMatched(lib: Lib, fs: seq<Failure>)
    ensures Matched(lib, fs, [])
  {
  }

  lemma CountNone()
    ensures Count(Incompatible(), []) == 0
  {
  }

  method CheckOutputs(lib: Lib, paths: seq<string>) returns (ok: bool)
    ensures ok <==> forall i :: 0 <= i < |paths| ==> Trim(lib.u, paths[i]) != ""
  {
    for i := 0 to |paths|
      invariant forall k :: 0 <= k < i ==> Trim(lib.u, paths[k]) != ""
    {
      if Trim(lib.u, paths[i]) == "" {
        return false;
      }
    }
    ok := true;
  }

  method ValidateReportForPack(lib: Lib, rep: Report, p: Pack, bytes: string) returns (ok: bool)
    ensures ok <==> ReportOK(lib, rep, p, bytes)
  {
    hide UnknownOK, DetailOK, FailuresOK, Trim, UnknownSum;
    if rep.schema != 1 || rep.packSHA != lib.hash(bytes) || rep.packBytes != |bytes|
       || !SameProvenance(rep, p.header) || rep.counts != p.counts {
      return false;
    }
    ok := CheckUnknown(rep.unknown, rep.counts.unknown);
    if !ok || |rep.details| != rep.counts.malformed {
      return false;
    }
    ok := CheckDetails(p.header.dataset, rep.details);
    if !ok {
      return false;
    }
    ok := CheckFailures(lib, rep.failures, p.rules);
    if !ok {
      return false;
    }
    ok := CheckOutputs(lib, rep.outputs);
  }

  // ---------- What is built is consistent ----------

  lemma {:induction false} RecordsPartition(lib: Lib, lim: Limits, dataset: string, rs: seq<Record>)
    requires KnownGroups(rs)
    ensures |RulesFor(lib, lim, dataset, rs)| + CountBlank(rs) + |DetailsFor(dataset, rs)| == |rs|
  {
    hide KnownGroup, RuleFor;
    if rs != [] {
      RecordsPartition(lib, lim, dataset, rs[..|rs| - 1]);
    }
  }

  /** The rules are those of the records with a pattern. */
  lemma {:induction false} RulesFromRecords(lib: Lib, lim: Limits, dataset: string, rs: seq<Record>, x: PackRule)
    requires KnownGroups(rs)
    ensures x in RulesFor(lib, lim, dataset, rs)
            <==> exists i :: 0 <= i < |rs| && rs[i].body.Pattern? && RuleFor(lib, lim, dataset, rs[i]) == x
  {
    hide KnownGroup, RuleFor;
    if rs != [] {
      var init := rs[..|rs| - 1];
      RulesFromRecords(lib, lim, dataset, init, x);
      if x in RulesFor(lib, lim, dataset, init) {
        var i :| 0 <= i < |init| && init[i].body.Pattern? && RuleFor(lib, lim, dataset, init[i]) == x;
        assert rs[i] == init[i];
      }
      forall i | 0 <= i < |init| ensures init[i] == rs[i] {}
    }
  }

  lemma {:induction false} DetailsFromRecords(dataset: string, rs: seq<Record>)
    requires forall i :: 0 <= i < |rs| ==> RecordOK(rs[i])
    ensures forall i :: 0 <= i < |DetailsFor(dataset, rs)| ==> DetailOK(dataset, DetailsFor(dataset, rs)[i])
  {
    hide KnownGroup;
    if rs != [] {
      DetailsFromRecords(dataset, rs[..|rs| - 1]);
      assert RecordOK(rs[|rs| - 1]);
    }
  }

  /** Different records have different generated IDs: nothing collides in the hash. */
  ghost predicate NoCollision(lib: Lib, dataset: string, rs: seq<Record>) {
    forall r, s :: r in rs && s in rs && r.body.Pattern? && s.body.Pattern? && (r.group, r.id) != (s.group, s.id) ==>
                     StableID(lib, dataset, r.group, r.id, 1) != StableID(lib, dataset, s.group, s.id, 1)
  }

  ghost predicate SizesOK(lib: Lib, lim: Limits, dataset: string, rs: seq<Record>)
    requires KnownGroups(rs)
  {
    forall i :: 0 <= i < |rs| && rs[i].body.Pattern? ==>
                  && lib.bytes(rs[i].body.regex) <= lim.patternBytes
                  && lib.metadataBytes(RuleFor(lib, lim, dataset, rs[i])) <= lim.metadataBytes
  }

  lemma {:induction false} DistinctIDsIff(lib: Lib, lim: Limits, dataset: string, rs: seq<Record>)
    requires KnownGroups(rs) && DistinctRecords(rs)
    ensures DistinctRuleIDs(RulesFor(lib, lim, dataset, rs)) <==> NoCollision(lib, dataset, rs)
  {
    hide KnownGroup, StableID, RuleFor, NoCollision, RulesFor;
    if rs == [] {
      NoRecords(lib, lim, dataset);
    } else {
      var init, last := rs[..|rs| - 1], rs[|rs| - 1];
      DistinctIDsIff(lib, lim, dataset, init);
      var rules := RulesFor(lib, lim, dataset, init);
      assert rs == init + [last];
      forall i | 0 <= i < |init| ensures (init[i].group, init[i].id) != (last.group, last.id) {
        assert rs[i] == init[i];
      }
      CollisionMore(lib, dataset, init, last);
      RulesForSnoc(lib, lim, dataset, init, last);
      if last.body.Pattern? {
        NewID(lib, lim, dataset, init, last);
        DistinctMore(rules, RuleFor(lib, lim, dataset, last));
      } else {
        assert rules + [] == rules;
      }
    }
  }

  lemma DistinctMore(rules: seq<PackRule>, r: PackRule)
    ensures DistinctRuleIDs(rules + [r]) <==> DistinctRuleIDs(rules) && forall x :: x in rules ==> x.id != r.id
  {
    if DistinctRuleIDs(rules + [r]) {
      forall i, j | 0 <= i < j < |rules| ensures rules[i].id != rules[j].id {
        assert (rules + [r])[i] == rules[i] && (rules + [r])[j] == rules[j];
      }
      forall x | x in rules ensures x.id != r.id {
        var i :| 0 <= i < |rules| && rules[i] == x;
        assert (rules + [r])[i] == x && (rules + [r])[|rules|] == r;
      }
    }
  }

  lemma NoRecords(lib: Lib, lim: Limits, dataset: string)
    ensures RulesFor(lib, lim, dataset, []) == [] && NoCollision(lib, dataset, [])
  {
  }

  lemma CollisionMore(lib: Lib, dataset: string, init: seq<Record>, last: Record)
    requires forall i :: 0 <= i < |init| ==> (init[i].group, init[i].id) != (last.group, last.id)
    ensures NoCollision(lib, dataset, init + [last]) <==>
            && NoCollision(lib, dataset, init)
            && forall i :: 0 <= i < |init| && init[i].body.Pattern? && last.body.Pattern? ==>
                             StableID(lib, dataset, init[i].group, init[i].id, 1) != StableID(lib, dataset, last.group, last.id, 1)
  {
  }

  lemma NewID(lib: Lib, lim: Limits, dataset: string, rs: seq<Record>, r: Record)
    requires KnownGroups(rs) && KnownGroup(r.group) && r.body.Pattern?
    ensures (forall x :: x in RulesFor(lib, lim, dataset, rs) ==> x.id != RuleFor(lib, lim, dataset, r).id) <==>
            forall i :: 0 <= i < |rs| && rs[i].body.Pattern? ==>
                          StableID(lib, dataset, rs[i].group, rs[i].id, 1) != StableID(lib, dataset, r.group, r.id, 1)
  {
    hide KnownGroup, RulesFor, StableID;
    forall x { RulesFromRecords(lib, lim, dataset, rs, x); }
    forall q: Record | KnownGroup(q.group) && q.body.Pattern?
      ensures RuleFor(lib, lim, dataset, q).id == StableID(lib, dataset, q.group, q.id, 1) {}
  }

  lemma RuleForOK(lib: Lib, lim: Limits, h: Header, r: Record)
    requires RecordOK(r) && r.body.Pattern? && h.provider == PROVIDER
    ensures RuleOK(lib, lim, h, RuleFor(lib, lim, h.dataset, r)) <==>
            && lib.bytes(r.body.regex) <= lim.patternBytes
            && lib.metadataBytes(RuleFor(lib, lim, h.dataset, r)) <= lim.metadataBytes
  {
  }

  lemma RulesForOK(lib: Lib, lim: Limits, h: Header, rs: seq<Record>)
    requires RecordsOK(rs) && KnownGroups(rs) && h.provider == PROVIDER
    ensures (forall i :: 0 <= i < |RulesFor(lib, lim, h.dataset, rs)| ==> RuleOK(lib, lim, h, RulesFor(lib, lim, h.dataset, rs)[i]))
            <==> SizesOK(lib, lim, h.dataset, rs)
  {
    hide RuleOK, RuleFor, RulesFor, KnownGroup, RecordOK;
    var rules := RulesFor(lib, lim, h.dataset, rs);
    forall k | 0 <= k < |rules|
      ensures exists i :: 0 <= i < |rs| && rs[i].body.Pattern? && RuleFor(lib, lim, h.dataset, rs[i]) == rules[k]
    {
      RulesFromRecords(lib, lim, h.dataset, rs, rules[k]);
    }
    forall i | 0 <= i < |rs| && rs[i].body.Pattern?
      ensures RuleFor(lib, lim, h.dataset, rs[i]) in rules
      ensures RuleOK(lib, lim, h, RuleFor(lib, lim, h.dataset, rs[i])) <==>
              && lib.bytes(rs[i].body.regex) <= lim.patternBytes
              && lib.metadataBytes(RuleFor(lib, lim, h.dataset, rs[i])) <= lim.metadataBytes
    {
      RulesFromRecords(lib, lim, h.dataset, rs, RuleFor(lib, lim, h.dataset, rs[i]));
      RuleForOK(lib, lim, h, rs[i]);
    }
  }

  lemma {:induction false} FailuresFromRules(lib: Lib, rs: seq<PackRule>, f: Failure)
    ensures f in FailuresOf(lib, rs) <==> exists k :: 0 <= k < |rs| && !rs[k].compatible && f == FailureOf(lib, rs[k])
  {
    if rs != [] {
      var init := rs[..|rs| - 1];
      FailuresFromRules(lib, init, f);
      if f in FailuresOf(lib, init) {
        var k :| 0 <= k < |init| && !init[k].compatible && f == FailureOf(lib, init[k]);
        assert rs[k] == init[k];
      }
      forall i | 0 <= i < |init| ensures init[i] == rs[i] {}
    }
  }

  lemma {:induction false} FailuresConsistent(lib: Lib, rs: seq<PackRule>)
    requires DistinctRuleIDs(rs) && forall i :: 0 <= i < |rs| ==> rs[i].id != ""
    ensures FailuresOK(lib, FailuresOf(lib, rs), rs)
  {
    var fs := FailuresOf(lib, rs);
    forall f { FailuresFromRules(lib, rs, f); }
    FailuresDistinct(lib, rs);
    forall k, i | 0 <= k < |rs| && rs[k].compatible && 0 <= i < |fs| ensures fs[i].ruleID != rs[k].id {
      assert fs[i] in fs;
    }
    forall i | 0 <= i < |fs| ensures fs[i].ruleID != "" { assert fs[i] in fs; }
  }

  lemma {:induction false} FailuresDistinct(lib: Lib, rs: seq<PackRule>)
    requires DistinctRuleIDs(rs)
    ensures var fs := FailuresOf(lib, rs);
            && (forall i, j :: 0 <= i < j < |fs| ==> fs[i].ruleID != fs[j].ruleID)
            && Count(Incompatible(), rs) == |fs|
  {
    if rs != [] {
      var init, last := rs[..|rs| - 1], rs[|rs| - 1];
      FailuresDistinct(lib, init);
      var fs := FailuresOf(lib, init);
      forall i | 0 <= i < |fs| ensures fs[i].ruleID != last.id {
        FailuresFromRules(lib, init, fs[i]);
        assert forall k :: 0 <= k < |init| ==> init[k] == rs[k];
      }
    }
  }

  // ---------- BuildPack ----------

  datatype Options = Options(
    dataset: string, repository: string, commit: string, path: string, inputSHA: string, license: string,
    timestamp: string, inputBytes: nat, outputPath: string, reportPath: string)

  function HeaderFor(lib: Lib, opt: Options): Header {
    Header(1, PROVIDER, opt.dataset, opt.repository, Lower(lib.u, opt.commit), opt.path, opt.inputSHA,
           if opt.license == "" then "NOASSERTION" else opt.license, opt.timestamp, "openaudit-bundled-rules", "phase-a")
  }

  ghost predicate IsHeaderFor(lib: Lib, opt: Options, h: Header) {
    && h.dataset == opt.dataset && h.repository == opt.repository && h.path == opt.path && h.inputSHA == opt.inputSHA
    && h.timestamp == opt.timestamp && h.commit == Lower(lib.u, opt.commit)
    && (opt.license != "" ==> h.license == opt.license) && (opt.license == "" ==> h.license == "NOASSERTION")
    && h.schema == 1 && h.provider == "netease" && h.generator == "openaudit-bundled-rules" && h.generatorVersion == "phase-a"
  }

  /** The report names the pack, its bytes, where it comes from, and where it goes. */
  ghost predicate IsReportFor(lib: Lib, opt: Options, p: Pack, rep: Report, bytes: string) {
    && rep.schema == 1 && bytes == lib.encode(p) && rep.packSHA == lib.hash(bytes) && rep.packBytes == |bytes| && rep.counts == p.counts
    && rep.provider == "netease" && rep.dataset == opt.dataset && rep.repository == opt.repository
    && rep.commit == Lower(lib.u, opt.commit) && rep.path == opt.path && rep.inputSHA == opt.inputSHA
    && forall q :: q in rep.outputs <==> q in [opt.outputPath, opt.reportPath] && q != ""
  }

  /** The inputs from which a pack is built. */
  ghost predicate CanBuild(lib: Lib, lim: Limits, opt: Options, tops: seq<Top>)
    requires LibOK(lib)
  {
    && opt.inputBytes <= lim.inputBytes && ValidDataset(opt.dataset) && (opt.commit == "" || IsHex(opt.commit, 40))
    && HeaderOK(lib, HeaderFor(lib, opt)) && DocumentOK(lib, lim, tops)
    && Fits(lib, lim, opt.dataset, KnownRecords(lib, RegexOf(lib, lim, tops)))
  }

  /** Nothing is too large, and no generated ID collides. */
  ghost predicate Fits(lib: Lib, lim: Limits, dataset: string, rs: seq<Record>) {
    KnownGroups(rs) && SizesOK(lib, lim, dataset, rs) && NoCollision(lib, dataset, rs)
  }

  /** The sort keeps all that matters. */
  lemma Arranged(lib: Lib, lim: Limits, dataset: string, rs: seq<Record>)
    requires LibOK(lib) && RecordsOK(rs) && DistinctRecords(rs)
    ensures var a := lib.arrange(rs);
            && |a| == |rs| && RecordsOK(a) && KnownGroups(a) && DistinctRecords(a)
            && (Fits(lib, lim, dataset, a) <==> Fits(lib, lim, dataset, rs))
  {
    hide LikeGo, StableID, KnownGroup, RuleFor;
    var a := lib.arrange(rs);
    assert |multiset(a)| == |multiset(rs)|;
    forall x ensures x in a <==> x in rs {
      assert x in a <==> x in multiset(a);
      assert x in rs <==> x in multiset(rs);
    }
    forall i | 0 <= i < |a| ensures RecordOK(a[i]) { assert a[i] in rs; }
    ArrangedDistinct(rs, a);
    assert KnownGroups(rs) && KnownGroups(a);
    assert SizesOK(lib, lim, dataset, a) <==> SizesOK(lib, lim, dataset, rs) by {
      forall i | 0 <= i < |a| ensures exists k :: 0 <= k < |rs| && rs[k] == a[i] { assert a[i] in rs; }
      forall i | 0 <= i < |rs| ensures exists k :: 0 <= k < |a| && a[k] == rs[i] { assert rs[i] in a; }
    }
  }

  lemma ArrangedDistinct(rs: seq<Record>, a: seq<Record>)
    requires multiset(a) == multiset(rs) && DistinctRecords(rs)
    ensures DistinctRecords(a)
  {
    NoDuplicatesPermuted(rs, a);
    forall i, j | 0 <= i < j < |a| ensures (a[i].group, a[i].id) != (a[j].group, a[j].id) {
      assert a[i] in multiset(rs) && a[j] in multiset(rs);
      var k :| 0 <= k < |rs| && rs[k] == a[i];
      var l :| 0 <= l < |rs| && rs[l] == a[j];
    }
  }

  /** The loop's result, with the aggregates: validation can only fail for the header, a size, or a
      collision. */
  lemma BuiltPackOK(lib: Lib, lim: Limits, h: Header, unknown: nat, rs: seq<Record>, b: Build, p: Pack)
    requires RecordsOK(rs) && DistinctRecords(rs) && |rs| <= lim.rules && h.provider == PROVIDER
    requires BuildOf(lib, lim, h.dataset, unknown, rs, b)
    requires p == Pack(h, b.counts.(byDataset := [NameCount(h.dataset, |b.rules|)], byGroup := GroupCounts(b.rules),
                                    pcre2 := StatusCounts(b.rules)), b.rules)
    ensures PackOK(lib, lim, p) <==> HeaderOK(lib, h) && Fits(lib, lim, h.dataset, rs)
  {
    hide HeaderOK, RuleOK, GroupCounts, StatusCounts, RulesFor, SizesOK, NoCollision, DistinctRuleIDs, RecordOK, IDsSeen,
         FailuresOf, DetailsFor, CountBlank, Regexes, Count;
    RecordsPartition(lib, lim, h.dataset, rs);
    RulesForOK(lib, lim, h, rs);
    DistinctIDsIff(lib, lim, h.dataset, rs);
  }

  /** BuildPack. It succeeds exactly on the inputs that CanBuild describes. The pack then accounts for
      every entry of the document, and its report is accepted unless an unknown group has the empty
      name, or an output path is blank. */
  method BuildPack(lib: Lib, lim: Limits, opt: Options, tops: seq<Top>) returns (r: Option<(Pack, Report, string)>)
    requires LibOK(lib)
    ensures r.Some? <==> CanBuild(lib, lim, opt, tops)
    ensures r.Some? ==>
              var (p, rep, bytes), gs := r.value, RegexOf(lib, lim, tops);
              && (exists i :: 0 <= i < |tops| && Lower(lib.u, tops[i].key) == "regex" && tops[i].regex == Some(gs))
              && PackOK(lib, lim, p) && Accounted(lib, lim, opt.dataset, gs, p) && IsHeaderFor(lib, opt, p.header)
              && EntriesInPack(lib, opt.dataset, gs, p) && CountsAreSizes(p.counts, opt.dataset, p.rules)
              && EntriesInReport(lib, opt.dataset, gs, p, rep) && IsReportFor(lib, opt, p, rep, bytes)
              && (ReportOK(lib, rep, p, bytes) <==>
                  (forall x :: x in UnknownGroups(lib, gs) ==> x.name != "")
                  && (forall q :: q in [opt.outputPath, opt.reportPath] && q != "" ==> Trim(lib.u, q) != ""))
  {
    hide HeaderOK, DocumentOK, KnownRecords, UnknownGroups, Fits, BuildOf, GroupCounts, StatusCounts, PackOK, ReportOK,
         Accounted, LikeGo, DistinctRecords, RecordsOK, KnownGroups, IsHex, Trim, UnknownSum, RegexOf,
         EntriesInPack, CountsAreSizes, EntriesInReport;
    if opt.inputBytes > lim.inputBytes || !ValidDataset(opt.dataset) || (opt.commit != "" && !IsHex(opt.commit, 40)) {
      return None;
    }
    var doc := Parse(lib, lim, tops);
    if doc == None {
      return None;
    }
    ghost var gs := RegexOf(lib, lim, tops);
    RegexIs(lib, lim, tops);
    ParsedOK(lib, lim, tops);
    Arranged(lib, lim, opt.dataset, doc.value.records);
    var unknown := AddUnknown(doc.value.unknown);
    var rs, h := lib.arrange(doc.value.records), HeaderFor(lib, opt);
    var b := BuildRules(lib, lim, opt.dataset, unknown, rs);
    var byGroup, pcre2 := Aggregates(b.rules);
    var c := b.counts.(byDataset := [NameCount(opt.dataset, |b.rules|)], byGroup := byGroup, pcre2 := pcre2);
    var p := Pack(h, c, b.rules);
    BuiltPackOK(lib, lim, h, unknown, rs, b, p);
    var ok := ValidatePack(lib, lim, p);
    if !ok {
      return None;
    }
    var bytes := lib.encode(p);
    var outputs := (if opt.outputPath != "" then [opt.outputPath] else []) + (if opt.reportPath != "" then [opt.reportPath] else []);
    var rep := Report(1, lib.hash(bytes), |bytes|, PROVIDER, opt.dataset, opt.repository, h.commit, opt.path, opt.inputSHA,
                      c, doc.value.unknown, b.details, b.failures, outputs);
    BuiltAccounted(lib, lim, gs, rs, b, p);
    BuiltReportOK(lib, lim, opt, gs, rs, b, p, rep, bytes);
    BuiltEntries(lib, lim, gs, rs, b, p);
    BuiltReportEntries(lib, lim, gs, rs, b, p, rep);
    r := Some((p, rep, bytes));
  }

  method AddUnknown(us: seq<Unknown>) returns (n: nat)
    ensures n == UnknownSum(us)
  {
    n := 0;
    for i := 0 to |us|
      invariant n == UnknownSum(us[..i])
    {
      assert us[..i + 1][..i] == us[..i];
      n := n + us[i].count;
    }
    assert us[..|us|] == us;
  }

  lemma ParsedOK(lib: Lib, lim: Limits, tops: seq<Top>)
    requires LibOK(lib) && DocumentOK(lib, lim, tops)
    ensures var gs := RegexOf(lib, lim, tops); var rs := KnownRecords(lib, gs);
            && GroupsOK(lib, lim, gs) && RecordsOK(rs) && DistinctRecords(rs) && |rs| <= lim.rules
  {
    hide NameOf, KnownRecords, RecordOK, LikeGo, DistinctRecords;
    KnownRecordsDistinct(lib, RegexOf(lib, lim, tops));
  }

  /** Every entry of the document is imported, empty, malformed, or in an unknown group; the rules are
      those of the patterns, one for each. */
  ghost predicate Accounted(lib: Lib, lim: Limits, dataset: string, gs: seq<Group>, p: Pack) {
    && p.counts.total == EntryCount(gs) && p.counts.unknown == UnknownSum(UnknownGroups(lib, gs))
    && p.counts.imported + p.counts.empty + p.counts.malformed == |KnownRecords(lib, gs)|
    && p.counts.duplicateIdentities == 0
    && (forall x :: x in p.rules <==>
          exists r :: r in KnownRecords(lib, gs) && r.body.Pattern? && KnownGroup(r.group) && RuleFor(lib, lim, dataset, r) == x)
  }

  lemma BuiltAccounted(lib: Lib, lim: Limits, gs: seq<Group>, rs: seq<Record>, b: Build, p: Pack)
    requires LibOK(lib) && rs == lib.arrange(KnownRecords(lib, gs)) && |rs| == |KnownRecords(lib, gs)|
    requires BuildOf(lib, lim, p.header.dataset, UnknownSum(StableSort(UnknownLess(), UnknownGroups(lib, gs))), rs, b)
    requires p.rules == b.rules
    requires p.counts == b.counts.(byDataset := p.counts.byDataset, byGroup := p.counts.byGroup, pcre2 := p.counts.pcre2)
    ensures Accounted(lib, lim, p.header.dataset, gs, p)
  {
    hide KnownGroup, RuleFor, RulesFor, KnownRecords, UnknownGroups, IDsSeen, FailuresOf, DetailsFor, CountBlank, Regexes, Count, LikeGo;
    SumSorted(UnknownGroups(lib, gs));
    EntriesAccounted(lib, gs);
    RecordsPartition(lib, lim, p.header.dataset, rs);
    var ks := KnownRecords(lib, gs);
    assert forall x :: x in multiset(rs) <==> x in multiset(ks);
    forall x ensures x in p.rules <==>
                     exists r :: r in ks && r.body.Pattern? && KnownGroup(r.group) && RuleFor(lib, lim, p.header.dataset, r) == x
    {
      RulesFromRecords(lib, lim, p.header.dataset, rs, x);
      if x in p.rules {
        var i :| 0 <= i < |rs| && rs[i].body.Pattern? && RuleFor(lib, lim, p.header.dataset, rs[i]) == x;
        assert rs[i] in multiset(ks);
      }
      if r :| r in ks && r.body.Pattern? && KnownGroup(r.group) && RuleFor(lib, lim, p.header.dataset, r) == x {
        assert r in multiset(rs);
        var i :| 0 <= i < |rs| && rs[i] == r;
      }
    }
  }

  /** The built pack, in terms of the document's entries. */
  lemma BuiltEntries(lib: Lib, lim: Limits, gs: seq<Group>, rs: seq<Record>, b: Build, p: Pack)
    requires LibOK(lib) && rs == lib.arrange(KnownRecords(lib, gs)) && PackOK(lib, lim, p)
    requires BuildOf(lib, lim, p.header.dataset, UnknownSum(StableSort(UnknownLess(), UnknownGroups(lib, gs))), rs, b)
    requires p.rules == b.rules
    requires p.counts == b.counts.(byDataset := p.counts.byDataset, byGroup := p.counts.byGroup, pcre2 := p.counts.pcre2)
    ensures EntriesInPack(lib, p.header.dataset, gs, p) && CountsAreSizes(p.counts, p.header.dataset, p.rules)
  {
    hide KnownGroup, RuleFor, RulesFor, KnownRecords, UnknownGroups, IDsSeen, FailuresOf, DetailsFor, CountBlank, CountIs, LikeGo,
         RulesCounted, RuleOK, HeaderOK, CountsMatch, HasEntry, HasText, IsRuleOf, FateCount, CountsAreSizes;
    var dataset := p.header.dataset;
    CountsAre(p.counts, dataset, p.rules);
    KindCounts(lib, lim, dataset, rs);
    forall f ensures CountIs(rs, f) == FateCount(lib, gs, f) {
      KnownRecordsHaveFates(lib, gs, f);
      CountIsPermuted(rs, KnownRecords(lib, gs), f);
    }
    forall group, id, s | HasEntry(lib, gs, group, id, Str(s)) && HasText(lib.u, s) ensures HasRule(lib, dataset, p.rules, group, id, s) {
      EntryHasRule(lib, lim, gs, rs, p, group, id, s);
    }
    forall r | r in p.rules
      ensures HasEntry(lib, gs, r.group, r.upstreamID, Str(r.regex)) && HasText(lib.u, r.regex)
      ensures IsRuleOf(lib, dataset, r, r.group, r.upstreamID, r.regex)
    {
      RuleHasEntry(lib, lim, gs, rs, p, r);
    }
    ImportedAreRules(b.counts, b.rules, b.seenRegex);
  }

  lemma ImportedAreRules(c: Counts, rules: seq<PackRule>, seenRegex: map<string, nat>)
    requires RulesCounted(c, rules, seenRegex)
    ensures c.imported == |rules|
  {
  }

  lemma SameRecords(lib: Lib, gs: seq<Group>, rs: seq<Record>)
    requires LibOK(lib) && rs == lib.arrange(KnownRecords(lib, gs))
    ensures forall r :: r in rs <==> r in KnownRecords(lib, gs)
  {
    hide LikeGo, KnownRecords;
    forall r ensures r in rs <==> r in KnownRecords(lib, gs) {
      assert r in rs <==> r in multiset(rs);
      assert r in KnownRecords(lib, gs) <==> r in multiset(KnownRecords(lib, gs));
    }
  }

  lemma EntryHasRule(lib: Lib, lim: Limits, gs: seq<Group>, rs: seq<Record>, p: Pack, group: string, id: string, s: string)
    requires LibOK(lib) && rs == lib.arrange(KnownRecords(lib, gs)) && KnownGroups(rs)
    requires p.rules == RulesFor(lib, lim, p.header.dataset, rs) && PackOK(lib, lim, p)
    requires HasEntry(lib, gs, group, id, Str(s)) && HasText(lib.u, s)
    ensures HasRule(lib, p.header.dataset, p.rules, group, id, s)
  {
    hide KnownRecords, RulesFor, KnownGroup, HasText, LowerTrim, LikeGo, HeaderOK, CountsMatch, BodyOf, RuleFor, IsRuleOf, DistinctRuleIDs;
    BodyIs(lib, Str(s));
    var x := Record(group, id, BodyOf(lib, Str(s)));
    var i: nat, j: nat :| IsEntry(lib, gs, i, j) && LowerTrim(lib.u, gs[i].key) == group && gs[i].entries.value[j] == Entry(id, Str(s));
    assert FromEntry(lib, gs, x, i, j);
    RecordIff(lib, gs, x);
    SameRecords(lib, gs, rs);
    var k :| 0 <= k < |rs| && rs[k] == x;
    var r := RuleFor(lib, lim, p.header.dataset, x);
    RulesFromRecords(lib, lim, p.header.dataset, rs, r);
    RuleFits(lib, lim, p, x, r);
  }

  lemma RuleFits(lib: Lib, lim: Limits, p: Pack, x: Record, r: PackRule)
    requires PackOK(lib, lim, p) && x.body.Pattern? && KnownGroup(x.group) && r == RuleFor(lib, lim, p.header.dataset, x) && r in p.rules
    ensures IsRuleOf(lib, p.header.dataset, r, x.group, x.id, x.body.regex)
  {
    hide KnownGroup, HeaderOK, CountsMatch, IsRuleOf, MappingOf, StableID, TagsOf;
    var k :| 0 <= k < |p.rules| && p.rules[k] == r;
    assert RuleOK(lib, lim, p.header, p.rules[k]);
    RuleForIs(lib, lim, p.header.dataset, x);
  }

  lemma RuleHasEntry(lib: Lib, lim: Limits, gs: seq<Group>, rs: seq<Record>, p: Pack, r: PackRule)
    requires LibOK(lib) && rs == lib.arrange(KnownRecords(lib, gs)) && KnownGroups(rs)
    requires p.rules == RulesFor(lib, lim, p.header.dataset, rs) && PackOK(lib, lim, p) && r in p.rules
    ensures HasEntry(lib, gs, r.group, r.upstreamID, Str(r.regex)) && HasText(lib.u, r.regex)
    ensures IsRuleOf(lib, p.header.dataset, r, r.group, r.upstreamID, r.regex)
  {
    hide KnownRecords, RulesFor, KnownGroup, HasText, LowerTrim, LikeGo, HeaderOK, CountsMatch, BodyOf, RuleFor, DistinctRuleIDs, RuleOK, MappingOf;
    RulesFromRecords(lib, lim, p.header.dataset, rs, r);
    var k :| 0 <= k < |rs| && rs[k].body.Pattern? && RuleFor(lib, lim, p.header.dataset, rs[k]) == r;
    SameRecords(lib, gs, rs);
    RuleFits(lib, lim, p, rs[k], r);
    RecordIff(lib, gs, rs[k]);
    var i: nat, j: nat :| FromEntry(lib, gs, rs[k], i, j);
    BodyIs(lib, gs[i].entries.value[j].value);
    assert IsEntry(lib, gs, i, j) && gs[i].entries.value[j] == Entry(r.upstreamID, Str(r.regex));
  }

  /** The report, in terms of the document's entries. */
  lemma BuiltReportEntries(lib: Lib, lim: Limits, gs: seq<Group>, rs: seq<Record>, b: Build, p: Pack, rep: Report)
    requires LibOK(lib) && rs == lib.arrange(KnownRecords(lib, gs)) && GroupsOK(lib, lim, gs)
    requires BuildOf(lib, lim, p.header.dataset, UnknownSum(StableSort(UnknownLess(), UnknownGroups(lib, gs))), rs, b)
    requires p.rules == b.rules && rep.details == b.details && rep.failures == b.failures
    requires rep.unknown == StableSort(UnknownLess(), UnknownGroups(lib, gs))
    ensures EntriesInReport(lib, p.header.dataset, gs, p, rep)
  {
    hide KnownGroup, RuleFor, RulesFor, KnownRecords, UnknownGroups, IDsSeen, FailuresOf, DetailsFor, CountBlank, CountIs, LikeGo, NameOf,
         RulesCounted, HasEntry, FateCount, FailureOf, IsFailureOf, HasFate, HasDetail, StableSort, GoodIDs, IsUnknown;
    var dataset := p.header.dataset;
    KindCounts(lib, lim, dataset, rs);
    KnownRecordsHaveFates(lib, gs, Misfit);
    CountIsPermuted(rs, KnownRecords(lib, gs), Misfit);
    forall group, id, v | HasEntry(lib, gs, group, id, v) && HasFate(lib.u, v, Misfit) ensures HasDetail(dataset, rep.details, group, id, v) {
      EntryHasDetail(lib, gs, rs, dataset, group, id, v);
    }
    RulesHaveFailures(lib, p.rules);
    SortedUnknown(lib, gs);
  }

  lemma RulesHaveFailures(lib: Lib, rules: seq<PackRule>)
    ensures forall r :: r in rules && !r.compatible ==> HasFailure(lib, FailuresOf(lib, rules), r)
    ensures forall f :: f in FailuresOf(lib, rules) ==> exists r :: r in rules && !r.compatible && IsFailureOf(lib, f, r)
  {
    hide FailuresOf, FailureOf, IsFailureOf;
    forall f { FailuresFromRules(lib, rules, f); }
    forall r { FailureOfIs(lib, r); }
    forall r | r in rules && !r.compatible ensures HasFailure(lib, FailuresOf(lib, rules), r) {
      var k :| 0 <= k < |rules| && rules[k] == r;
      assert FailureOf(lib, r) in FailuresOf(lib, rules);
    }
  }

  lemma SortedUnknown(lib: Lib, gs: seq<Group>)
    requires forall i, j :: 0 <= i < j < |gs| ==> NameOf(lib, gs[i].key) != NameOf(lib, gs[j].key)
    ensures forall x :: x in StableSort(UnknownLess(), UnknownGroups(lib, gs)) <==> exists i :: 0 <= i < |gs| && IsUnknown(lib, gs[i], x)
  {
    hide NameOf, IsUnknown, StableSort, UnknownGroups, KnownGroup;
    UnknownNames(lib, gs);
    SortedNames(UnknownGroups(lib, gs));
    forall x { UnknownIff(lib, gs, x); }
  }

  lemma EntryHasDetail(lib: Lib, gs: seq<Group>, rs: seq<Record>, dataset: string, group: string, id: string, v: Value)
    requires LibOK(lib) && rs == lib.arrange(KnownRecords(lib, gs))
    requires HasEntry(lib, gs, group, id, v) && HasFate(lib.u, v, Misfit)
    ensures HasDetail(dataset, DetailsFor(dataset, rs), group, id, v)
  {
    hide KnownRecords, DetailsFor, HasFate, HasText, LowerTrim, LikeGo, BodyOf, IsTypeWord;
    BodyIs(lib, v);
    var x := Record(group, id, BodyOf(lib, v));
    var i: nat, j: nat :| IsEntry(lib, gs, i, j) && LowerTrim(lib.u, gs[i].key) == group && gs[i].entries.value[j] == Entry(id, v);
    assert FromEntry(lib, gs, x, i, j);
    RecordIff(lib, gs, x);
    SameRecords(lib, gs, rs);
    var d := Detail(dataset, group, id, "value must be a string or null", x.body.valueType);
    DetailIff(dataset, rs, d);
    assert IsDetailOf(dataset, d, group, id, v);
  }

  lemma BuiltReportOK(lib: Lib, lim: Limits, opt: Options, gs: seq<Group>, rs: seq<Record>, b: Build, p: Pack, rep: Report, bytes: string)
    requires GroupsOK(lib, lim, gs) && RecordsOK(rs) && p.header == HeaderFor(lib, opt)
    requires BuildOf(lib, lim, opt.dataset, UnknownSum(StableSort(UnknownLess(), UnknownGroups(lib, gs))), rs, b)
    requires PackOK(lib, lim, p) && p.rules == b.rules
    requires p.counts == b.counts.(byDataset := p.counts.byDataset, byGroup := p.counts.byGroup, pcre2 := p.counts.pcre2)
    requires rep == Report(1, lib.hash(bytes), |bytes|, PROVIDER, opt.dataset, opt.repository, p.header.commit, opt.path, opt.inputSHA,
                           p.counts, StableSort(UnknownLess(), UnknownGroups(lib, gs)), b.details, b.failures,
                           (if opt.outputPath != "" then [opt.outputPath] else []) + (if opt.reportPath != "" then [opt.reportPath] else []))
    ensures ReportOK(lib, rep, p, bytes) <==>
            (forall x :: x in UnknownGroups(lib, gs) ==> x.name != "")
            && (forall q :: q in [opt.outputPath, opt.reportPath] && q != "" ==> Trim(lib.u, q) != "")
  {
    hide KnownRecords, UnknownGroups, NameOf, GoodIDs, HeaderOK, RulesFor, IDsSeen, FailuresOf, DetailsFor, CountBlank, Regexes, Count,
         DetailOK, FailuresOK, Trim, RulesCounted, CountsMatch, KnownGroups, RecordOK, UnknownSum;
    UnknownNames(lib, gs);
    SortedNames(UnknownGroups(lib, gs));
    DetailsFromRecords(opt.dataset, rs);
    forall i | 0 <= i < |p.rules| ensures p.rules[i].id != "" { assert RuleOK(lib, lim, p.header, p.rules[i]); }
    FailuresConsistent(lib, p.rules);
    var us := rep.unknown;
    assert (forall i :: 0 <= i < |us| ==> us[i].name != "") <==> forall x :: x in us ==> x.name != "";
    OutputsOK(lib, opt.outputPath, opt.reportPath, rep.outputs);
  }

  lemma OutputsOK(lib: Lib, a: string, b: string, outputs: seq<string>)
    requires outputs == (if a != "" then [a] else []) + (if b != "" then [b] else [])
    ensures (forall i :: 0 <= i < |outputs| ==> Trim(lib.u, outputs[i]) != "") <==>
            forall q :: q in [a, b] && q != "" ==> Trim(lib.u, q) != ""
  {
    hide Trim;
    assert forall q :: q in outputs <==> q in [a, b] && q != "";
    assert (forall i :: 0 <= i < |outputs| ==> Trim(lib.u, outputs[i]) != "") <==> forall q :: q in outputs ==> Trim(lib.u, q) != "";
  }

  /** A pattern over the size limit is recorded as incompatible, but never in a pack: validation then
      refuses the whole pack. */
  lemma OversizeRefused(lib: Lib, lim: Limits, dataset: string, rs: seq<Record>, r: Record)
    requires r in rs && r.body.Pattern? && KnownGroup(r.group) && lib.bytes(r.body.regex) > lim.patternBytes
    ensures !RuleFor(lib, lim, dataset, r).compatible && !Fits(lib, lim, dataset, rs)
  {
    hide KnownGroup, MappingOf, StableID;
    var i :| 0 <= i < |rs| && rs[i] == r;
  }
}
