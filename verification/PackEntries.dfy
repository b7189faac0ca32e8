/** What a pack and its report must say of each entry of the source document, in the document's own
    terms. */
module PackEntries {
  import opened Text
  import opened Wrappers
  import opened PackSpec

  // ---------- Entries ----------

  /** Some character is not a space. */
  ghost predicate HasText(u: Unicode, s: string) {
    exists i :: 0 <= i < |s| && !u.space(s[i])
  }

  datatype Fate = Imported | Empty | Misfit

  ghost predicate HasFate(u: Unicode, v: Value, f: Fate) {
    match f
    case Imported => v.Str? && HasText(u, v.s)
    case Empty => v.Null? || (v.Str? && !HasText(u, v.s))
    case Misfit => v.Number? || v.Boolean? || v.Array? || v.Object?
  }

  /** The key names one of the groups that rules are made of. */
  ghost predicate RuleGroup(lib: Lib, key: string) {
    LowerTrim(lib.u, key) in ["shield", "intercept", "replace", "nickname", "remind"]
  }

  ghost predicate IsEntry(lib: Lib, gs: seq<Group>, i: nat, j: nat) {
    i < |gs| && RuleGroup(lib, gs[i].key) && gs[i].entries.Some? && j < |gs[i].entries.value|
  }

  /** The document has this entry, in that group of rules. */
  ghost predicate HasEntry(lib: Lib, gs: seq<Group>, group: string, id: string, v: Value) {
    exists i: nat, j: nat :: IsEntry(lib, gs, i, j) && LowerTrim(lib.u, gs[i].key) == group && gs[i].entries.value[j] == Entry(id, v)
  }

  ghost function CountFate(lib: Lib, es: seq<Entry>, f: Fate): nat {
    if es == [] then 0 else CountFate(lib, es[..|es| - 1], f) + if HasFate(lib.u, es[|es| - 1].value, f) then 1 else 0
  }

  /** How many entries of the groups of rules have a fate. */
  ghost function FateCount(lib: Lib, gs: seq<Group>, f: Fate): nat {
    if gs == [] then 0
    else
      var g := gs[|gs| - 1];
      FateCount(lib, gs[..|gs| - 1], f) + if RuleGroup(lib, g.key) && g.entries.Some? then CountFate(lib, g.entries.value, f) else 0
  }

  // ---------- The pack ----------

  /** r is the rule for the pattern s with this ID in the group. */
  ghost predicate IsRuleOf(lib: Lib, dataset: string, r: PackRule, group: string, id: string, s: string) {
    && r.group == group && r.upstreamID == id && r.regex == s
    && r.id == "netease_" + dataset + "_" + group + "_" + lib.digest(dataset + ":" + group + ":" + id + ":" + lib.decimal(1))
    && r.provider == "netease" && r.dataset == dataset && r.kind == "regex" && r.source == "bundled:netease"
    && r.risk == "high" && r.score == 90 && r.tags == ["bundled", "provider:netease", "dataset:" + dataset, group]
    && r.enabled == (group in ["shield", "intercept"])
    && r.action == (if group in ["shield", "intercept"] then "block" else "review")
    && r.category == (if group == "nickname" then "nickname" else "netease_" + group) && r.behaviour == group
    && r.compatible == lib.compiles(s) && r.compatible == (r.error == "") && r.pcre2 == "not_checked"
    && r.hint == (if r.compatible then "" else lib.hint(s))
  }

  ghost predicate HasRule(lib: Lib, dataset: string, rules: seq<PackRule>, group: string, id: string, s: string) {
    exists r :: r in rules && IsRuleOf(lib, dataset, r, group, id, s)
  }

  /** Every entry is counted as what it is, every pattern has its rule, and every rule has its pattern. */
  ghost predicate EntriesInPack(lib: Lib, dataset: string, gs: seq<Group>, p: Pack) {
    && p.counts.imported == FateCount(lib, gs, Imported)
    && p.counts.empty == FateCount(lib, gs, Empty)
    && p.counts.malformed == FateCount(lib, gs, Misfit)
    && (forall group, id, s :: HasEntry(lib, gs, group, id, Str(s)) && HasText(lib.u, s) ==> HasRule(lib, dataset, p.rules, group, id, s))
    && (forall r :: r in p.rules ==>
                      && HasEntry(lib, gs, r.group, r.upstreamID, Str(r.regex)) && HasText(lib.u, r.regex)
                      && IsRuleOf(lib, dataset, r, r.group, r.upstreamID, r.regex))
  }

  // ---------- The report ----------

  ghost predicate IsTypeWord(w: string, v: Value) {
    && (v.Number? ==> w == "number") && (v.Boolean? ==> w == "boolean")
    && (v.Array? ==> w == "array") && (v.Object? ==> w == "object")
  }

  ghost predicate IsDetailOf(dataset: string, d: Detail, group: string, id: string, v: Value) {
    d.dataset == dataset && d.group == group && d.id == id && d.reason == "value must be a string or null" && IsTypeWord(d.valueType, v)
  }

  ghost predicate HasDetail(dataset: string, ds: seq<Detail>, group: string, id: string, v: Value) {
    exists d :: d in ds && IsDetailOf(dataset, d, group, id, v)
  }

  ghost predicate IsFailureOf(lib: Lib, f: Failure, r: PackRule) {
    f.dataset == r.dataset && f.group == r.group && f.id == r.upstreamID && f.ruleID == r.id
    && f.patternSHA == lib.hash(r.regex) && f.error == r.error && f.hint == r.hint
  }

  ghost predicate HasFailure(lib: Lib, fs: seq<Failure>, r: PackRule) {
    exists f :: f in fs && IsFailureOf(lib, f, r)
  }

  ghost predicate IsUnknown(lib: Lib, g: Group, x: Unknown) {
    !RuleGroup(lib, g.key) && g.entries.Some? && x == Unknown(g.key, |g.entries.value|)
  }

  /** The report names every entry that is neither a string nor null, every rule that does not compile, and
      every group that is not known, with its size. */
  ghost predicate EntriesInReport(lib: Lib, dataset: string, gs: seq<Group>, p: Pack, rep: Report) {
    && (forall group, id, v :: HasEntry(lib, gs, group, id, v) && HasFate(lib.u, v, Misfit) ==> HasDetail(dataset, rep.details, group, id, v))
    && |rep.details| == FateCount(lib, gs, Misfit)
    && (forall r :: r in p.rules && !r.compatible ==> HasFailure(lib, rep.failures, r))
    && (forall f :: f in rep.failures ==> exists r :: r in p.rules && !r.compatible && IsFailureOf(lib, f, r))
    && (forall x :: x in rep.unknown <==> exists i :: 0 <= i < |gs| && IsUnknown(lib, gs[i], x))
  }

  // ---------- Counts ----------

  ghost function StatusSize(rs: seq<PackRule>, status: string): nat {
    |set k | 0 <= k < |rs| && rs[k].pcre2 == status|
  }

  /** Rules that have not been checked are always counted, the others if there are any. */
  ghost function StatusSizes(rs: seq<PackRule>): seq<NameCount> {
    [NameCount("not_checked", StatusSize(rs, "not_checked"))]
    + (if StatusSize(rs, "compatible") > 0 then [NameCount("compatible", StatusSize(rs, "compatible"))] else [])
    + (if StatusSize(rs, "incompatible") > 0 then [NameCount("incompatible", StatusSize(rs, "incompatible"))] else [])
  }

  /** The counts are the sizes of what they count. */
  ghost predicate CountsAreSizes(c: Counts, dataset: string, rs: seq<PackRule>) {
    && c.parsed == |rs| && c.imported == |rs| && c.byDataset == [NameCount(dataset, |rs|)]
    && c.compatible == |set k | 0 <= k < |rs| && rs[k].compatible|
    && c.incompatible == |set k | 0 <= k < |rs| && !rs[k].compatible|
    && c.disabled == |set k | 0 <= k < |rs| && !rs[k].enabled|
    && c.duplicateRegex == |rs| - |set r | r in rs :: r.regex|
    && c.pcre2 == StatusSizes(rs)
    && |c.byGroup| == 5
    && (forall i :: 0 <= i < 5 ==>
                      && c.byGroup[i].name == ["shield", "intercept", "replace", "nickname", "remind"][i]
                      && c.byGroup[i].count == |set k | 0 <= k < |rs| && rs[k].group == c.byGroup[i].name|)
  }

  ghost function Where(f: PackRule -> bool, rs: seq<PackRule>): set<int> {
    set k | 0 <= k < |rs| && f(rs[k])
  }

  lemma WhereNone(f: PackRule -> bool)
    ensures Where(f, []) == {}
  {
  }

  lemma WhereSnoc(f: PackRule -> bool, rs: seq<PackRule>, r: PackRule)
    ensures Where(f, rs + [r]) == Where(f, rs) + (if f(r) then {|rs|} else {}) && |rs| !in Where(f, rs)
  {
  }

  lemma {:induction false} CountIsSize(f: PackRule -> bool, rs: seq<PackRule>)
    ensures Count(f, rs) == |Where(f, rs)|
  {
    hide Where;
    if rs == [] {
      WhereNone(f);
    } else {
      var n := |rs| - 1;
      CountIsSize(f, rs[..n]);
      WhereSnoc(f, rs[..n], rs[n]);
      assert rs == rs[..n] + [rs[n]];
    }
  }

  lemma CountsAre(c: Counts, dataset: string, rs: seq<PackRule>)
    requires CountsMatch(c, dataset, rs)
    ensures CountsAreSizes(c, dataset, rs)
  {
    hide Count, Compatible, Incompatible, Disabled, InGroup;
    hide HasStatus, StatusSize;
    FlagSizes(rs);
    forall g { GroupSize(rs, g); }
    forall status { SizeOfStatus(rs, status); }
  }

  lemma SizeOfStatus(rs: seq<PackRule>, status: string)
    ensures Count(HasStatus(status), rs) == StatusSize(rs, status)
  {
    hide Count;
    CountIsSize(HasStatus(status), rs);
    assert Where(HasStatus(status), rs) == set k | 0 <= k < |rs| && rs[k].pcre2 == status;
  }

  lemma FlagSizes(rs: seq<PackRule>)
    ensures Count(Compatible(), rs) == |set k | 0 <= k < |rs| && rs[k].compatible|
    ensures Count(Incompatible(), rs) == |set k | 0 <= k < |rs| && !rs[k].compatible|
    ensures Count(Disabled(), rs) == |set k | 0 <= k < |rs| && !rs[k].enabled|
  {
    hide Count;
    CountIsSize(Compatible(), rs);
    CountIsSize(Incompatible(), rs);
    CountIsSize(Disabled(), rs);
    assert Where(Compatible(), rs) == set k | 0 <= k < |rs| && rs[k].compatible;
    assert Where(Incompatible(), rs) == set k | 0 <= k < |rs| && !rs[k].compatible;
    assert Where(Disabled(), rs) == set k | 0 <= k < |rs| && !rs[k].enabled;
  }

  lemma GroupSize(rs: seq<PackRule>, g: string)
    ensures Count(InGroup(g), rs) == |set k | 0 <= k < |rs| && rs[k].group == g|
  {
    hide Count;
    CountIsSize(InGroup(g), rs);
    assert Where(InGroup(g), rs) == set k | 0 <= k < |rs| && rs[k].group == g;
  }

  // ---------- What validation accepts, in plain words ----------

  ghost predicate HexDigits(s: string, n: nat) {
    |s| == n && forall c :: c in s ==> c in "0123456789abcdefABCDEF"
  }

  /** A header is accepted if it is complete and its hashes are hexadecimal. */
  lemma HeaderIff(lib: Lib, h: Header)
    ensures HeaderOK(lib, h) <==>
            && h.schema == 1 && h.provider == "netease" && h.dataset in ["g79", "x19"]
            && HasText(lib.u, h.repository) && HexDigits(h.commit, 40) && HexDigits(h.inputSHA, 64)
            && lib.safePath(h.path) && lib.utcTime(h.timestamp)
            && "" !in [h.license, h.generator, h.generatorVersion]
  {
    hide HasText, Trim, IsHex, HexDigits;
    HasTextIff(lib.u, h.repository);
    HexIff(h.commit, 40);
    HexIff(h.inputSHA, 64);
  }

  lemma HexIff(s: string, n: nat)
    ensures IsHex(s, n) <==> HexDigits(s, n)
  {
    forall c ensures c in "0123456789abcdefABCDEF" <==> '0' <= c <= '9' || 'a' <= c <= 'f' || 'A' <= c <= 'F' { HexDigit(c); }
    assert forall i :: 0 <= i < |s| ==> s[i] in s;
  }

  lemma HexDigit(c: char)
    ensures c in "0123456789abcdefABCDEF" <==> '0' <= c <= '9' || 'a' <= c <= 'f' || 'A' <= c <= 'F'
  {
  }

  /** A rule is accepted if it says of itself what its group and the header say of it. */
  lemma RuleIff(lib: Lib, lim: Limits, h: Header, r: PackRule)
    ensures RuleOK(lib, lim, h, r) <==>
            && r.group in ["shield", "intercept", "replace", "nickname", "remind"]
            && r.provider == h.provider && r.dataset == h.dataset
            && "" !in [r.upstreamID, r.id, r.regex, r.description]
            && r.kind == "regex" && r.source == "bundled:netease" && r.risk == "high" && r.score == 90 && r.behaviour == r.group
            && r.tags == ["bundled", "provider:netease", "dataset:" + h.dataset, r.group]
            && lib.bytes(r.regex) <= lim.patternBytes && lib.metadataBytes(r) <= lim.metadataBytes
            && r.pcre2 in ["not_checked", "compatible", "incompatible"]
            && (r.compatible <==> r.error == "") && (r.enabled <==> r.group in ["shield", "intercept"])
            && r.action == (if r.enabled then "block" else "review")
            && r.category == (if r.group == "nickname" then "nickname" else "netease_" + r.group)
  {
    hide KnownGroup, MappingOf;
    GroupIff(r.group);
    if KnownGroup(r.group) {
      MappingIs(r.group);
    }
  }

  lemma GroupIff(g: string)
    ensures KnownGroup(g) <==> g in ["shield", "intercept", "replace", "nickname", "remind"]
  {
  }

  lemma MappingIs(g: string)
    requires KnownGroup(g)
    ensures var m := MappingOf(g); var blocks := g in ["shield", "intercept"];
            && m.enabled == blocks && m.action == (if blocks then "block" else "review") && m.behaviour == g
            && m.category == (if g == "nickname" then "nickname" else "netease_" + g)
  {
  }

  /** The groups are the value of the one top-level key that reads "regex" in lower case. */
  lemma RegexIs(lib: Lib, lim: Limits, tops: seq<Top>)
    requires DocumentOK(lib, lim, tops)
    ensures exists i :: 0 <= i < |tops| && Lower(lib.u, tops[i].key) == "regex" && tops[i].regex == Some(RegexOf(lib, lim, tops))
    ensures forall i, j :: 0 <= i < j < |tops| ==> Lower(lib.u, tops[i].key) != Lower(lib.u, tops[j].key)
  {
    hide GroupsOK;
  }

  /** A report's provenance is that of the pack if it agrees in all six fields. */
  lemma ProvenanceIff(rep: Report, h: Header)
    ensures SameProvenance(rep, h) <==>
            (rep.provider, rep.dataset, rep.repository, rep.commit, rep.path, rep.inputSHA)
            == (h.provider, h.dataset, h.repository, h.commit, h.path, h.inputSHA)
  {
  }

  // ---------- Entries and records ----------

  lemma HasTextIff(u: Unicode, s: string)
    ensures HasText(u, s) <==> Trim(u, s) != ""
  {
    TrimmedAwayIff(u, s);
  }

  /** An entry's record, as the parser makes it, has the fate of its value. */
  lemma BodyIs(lib: Lib, v: Value)
    ensures HasFate(lib.u, v, Imported) <==> BodyOf(lib, v).Pattern?
    ensures HasFate(lib.u, v, Empty) <==> BodyOf(lib, v).Blank?
    ensures HasFate(lib.u, v, Misfit) <==> BodyOf(lib, v).Malformed?
    ensures BodyOf(lib, v).Pattern? ==> v == Str(BodyOf(lib, v).regex) && HasText(lib.u, v.s)
    ensures BodyOf(lib, v).Malformed? ==> IsTypeWord(BodyOf(lib, v).valueType, v)
  {
    if v.Str? { HasTextIff(lib.u, v.s); }
    hide Trim, HasText;
  }

  /** The parser's record of an entry. */
  ghost predicate IsRecordOf(lib: Lib, group: string, e: Entry, r: Record) {
    && r.group == group && r.id == e.id
    && (HasFate(lib.u, e.value, Imported) ==> r.body == Pattern(e.value.s))
    && (HasFate(lib.u, e.value, Empty) ==> r.body == Blank)
    && (HasFate(lib.u, e.value, Misfit) ==> r.body.Malformed? && IsTypeWord(r.body.valueType, e.value))
  }

  lemma RecordsAre(lib: Lib, group: string, es: seq<Entry>)
    ensures forall i :: 0 <= i < |es| ==> IsRecordOf(lib, group, es[i], RecordsOf(lib, group, es)[i])
  {
    hide BodyOf, HasText, IsTypeWord;
    forall i | 0 <= i < |es| ensures IsRecordOf(lib, group, es[i], RecordsOf(lib, group, es)[i]) {
      BodyIs(lib, es[i].value);
    }
  }

  ghost predicate Is(r: Record, f: Fate) {
    match f
    case Imported => r.body.Pattern?
    case Empty => r.body.Blank?
    case Misfit => r.body.Malformed?
  }

  ghost function CountIs(rs: seq<Record>, f: Fate): nat {
    if rs == [] then 0 else CountIs(rs[..|rs| - 1], f) + if Is(rs[|rs| - 1], f) then 1 else 0
  }

  lemma CountIsSnoc(rs: seq<Record>, r: Record, f: Fate)
    ensures CountIs(rs + [r], f) == CountIs(rs, f) + if Is(r, f) then 1 else 0
  {
    assert (rs + [r])[..|rs|] == rs;
  }

  lemma {:induction false} CountIsAppend(a: seq<Record>, b: seq<Record>, f: Fate)
    ensures CountIs(a + b, f) == CountIs(a, f) + CountIs(b, f)
  {
    hide CountIs;
    if b == [] {
      assert a + b == a;
      CountIsNone(f);
    } else {
      var init, last := b[..|b| - 1], b[|b| - 1];
      CountIsAppend(a, init, f);
      assert a + b == (a + init) + [last] && b == init + [last];
      CountIsSnoc(a + init, last, f);
      CountIsSnoc(init, last, f);
    }
  }

  lemma CountIsNone(f: Fate)
    ensures CountIs([], f) == 0
  {
  }

  /** The order does not matter. */
  lemma {:induction false} CountIsPermuted(a: seq<Record>, b: seq<Record>, f: Fate)
    requires multiset(a) == multiset(b)
    ensures CountIs(a, f) == CountIs(b, f)
  {
    hide CountIs;
    if a == [] {
      assert b == [] by { assert forall r :: r in b ==> r in multiset(a); }
    } else {
      var init, last := a[..|a| - 1], a[|a| - 1];
      assert a == init + [last];
      assert last in multiset(b);
      var j :| 0 <= j < |b| && b[j] == last;
      var front, back := b[..j], b[j + 1..];
      assert b == front + [last] + back;
      WithoutOne(init, front, back, last);
      CountIsPermuted(init, front + back, f);
      CountIsSnoc(init, last, f);
      CountIsAppend(front, back, f);
      CountIsSnoc(front, last, f);
      CountIsAppend(front + [last], back, f);
    }
  }

  lemma WithoutOne(a: seq<Record>, front: seq<Record>, back: seq<Record>, r: Record)
    requires multiset(a + [r]) == multiset(front + [r] + back)
    ensures multiset(a) == multiset(front + back)
  {
    assert multiset(a) == multiset(a + [r]) - multiset{r};
    assert multiset(front + back) == multiset(front) + multiset(back) == multiset(front + [r] + back) - multiset{r};
  }

  lemma {:induction false} RecordsHaveFates(lib: Lib, group: string, es: seq<Entry>, f: Fate)
    ensures CountIs(RecordsOf(lib, group, es), f) == CountFate(lib, es, f)
  {
    if es != [] {
      var init, e := es[..|es| - 1], es[|es| - 1];
      RecordsHaveFates(lib, group, init, f);
      CountIsSnoc(RecordsOf(lib, group, init), Record(group, e.id, BodyOf(lib, e.value)), f);
      BodyIs(lib, e.value);
      hide CountIs, BodyOf, HasFate;
    }
  }

  lemma {:induction false} KnownRecordsHaveFates(lib: Lib, gs: seq<Group>, f: Fate)
    ensures CountIs(KnownRecords(lib, gs), f) == FateCount(lib, gs, f)
  {
    hide CountIs, RecordsOf, CountFate;
    CountIsNone(f);
    if gs != [] {
      var g, init := gs[|gs| - 1], gs[..|gs| - 1];
      KnownRecordsHaveFates(lib, init, f);
      if KnownGroup(Canonical(lib, g.key)) && g.entries.Some? {
        RecordsHaveFates(lib, Canonical(lib, g.key), g.entries.value, f);
        CountIsAppend(KnownRecords(lib, init), RecordsOf(lib, Canonical(lib, g.key), g.entries.value), f);
      }
    }
  }

  /** A record comes from the entry at (i, j). */
  ghost predicate FromEntry(lib: Lib, gs: seq<Group>, x: Record, i: nat, j: nat) {
    && IsEntry(lib, gs, i, j) && x.group == LowerTrim(lib.u, gs[i].key)
    && var e := gs[i].entries.value[j]; x.id == e.id && x.body == BodyOf(lib, e.value)
  }

  lemma {:induction false} RecordIff(lib: Lib, gs: seq<Group>, x: Record)
    ensures x in KnownRecords(lib, gs) <==> exists i: nat, j: nat :: FromEntry(lib, gs, x, i, j)
  {
    hide LowerTrim, BodyOf;
    if gs != [] {
      var n := |gs| - 1;
      var g, init := gs[n], gs[..n];
      RecordIff(lib, init, x);
      forall i: nat, j: nat | i < n ensures FromEntry(lib, gs, x, i, j) <==> FromEntry(lib, init, x, i, j) {
        assert init[i] == gs[i];
      }
      if KnownGroup(Canonical(lib, g.key)) && g.entries.Some? {
        var rs := RecordsOf(lib, Canonical(lib, g.key), g.entries.value);
        if x in rs {
          var j: nat :| j < |rs| && rs[j] == x;
          assert FromEntry(lib, gs, x, n, j);
        }
        if j: nat :| FromEntry(lib, gs, x, n, j) {
          assert rs[j] == x;
        }
      }
    }
  }

  // ---------- Entries, rules and details ----------

  lemma {:induction false} DetailIff(dataset: string, rs: seq<Record>, d: Detail)
    ensures d in DetailsFor(dataset, rs) <==>
            exists r :: r in rs && r.body.Malformed? && d == Detail(dataset, r.group, r.id, "value must be a string or null", r.body.valueType)
  {
    if rs != [] {
      var init, last := rs[..|rs| - 1], rs[|rs| - 1];
      DetailIff(dataset, init, d);
      assert rs == init + [last];
      assert forall r :: r in rs <==> r in init || r == last;
    }
  }

  lemma {:induction false} KindCounts(lib: Lib, lim: Limits, dataset: string, rs: seq<Record>)
    requires forall i :: 0 <= i < |rs| ==> KnownGroup(rs[i].group)
    ensures |RulesFor(lib, lim, dataset, rs)| == CountIs(rs, Imported)
    ensures CountBlank(rs) == CountIs(rs, Empty) && |DetailsFor(dataset, rs)| == CountIs(rs, Misfit)
  {
    hide KnownGroup, RuleFor;
    if rs != [] {
      KindCounts(lib, lim, dataset, rs[..|rs| - 1]);
    }
  }

  /** The rule made of a pattern that is not too long is what it should be. */
  lemma RuleForIs(lib: Lib, lim: Limits, dataset: string, r: Record)
    requires r.body.Pattern? && KnownGroup(r.group) && lib.bytes(r.body.regex) <= lim.patternBytes
    ensures IsRuleOf(lib, dataset, RuleFor(lib, lim, dataset, r), r.group, r.id, r.body.regex)
  {
    hide KnownGroup, MappingOf;
    MappingIs(r.group);
  }

  lemma FailureOfIs(lib: Lib, r: PackRule)
    ensures IsFailureOf(lib, FailureOf(lib, r), r)
  {
  }

  lemma {:induction false} UnknownIff(lib: Lib, gs: seq<Group>, x: Unknown)
    ensures x in UnknownGroups(lib, gs) <==> exists i :: 0 <= i < |gs| && IsUnknown(lib, gs[i], x)
  {
    hide LowerTrim;
    if gs != [] {
      var init := gs[..|gs| - 1];
      UnknownIff(lib, init, x);
      assert forall i :: 0 <= i < |init| ==> init[i] == gs[i];
    }
  }
}
