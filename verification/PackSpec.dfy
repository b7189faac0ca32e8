/** Rule packs: the source document, the pack and its report, and what makes them consistent. */
module PackSpec {
  import opened Text
  import opened Wrappers

  // ---------- The source document ----------

  datatype Value = Null | Str(s: string) | Number | Boolean | Array | Object

  datatype Entry = Entry(id: string, value: Value)

  /** A key of the regex object; entries is None when its value is not an object. */
  datatype Group = Group(key: string, entries: Option<seq<Entry>>)

  /** A top-level key; regex is its value if that is an object. */
  datatype Top = Top(key: string, regex: Option<seq<Group>>)

  datatype Body = Blank | Malformed(valueType: string) | Pattern(regex: string)

  datatype Record = Record(group: string, id: string, body: Body)

  datatype Unknown = Unknown(name: string, count: nat)

  datatype Doc = Doc(records: seq<Record>, unknown: seq<Unknown>)

  datatype Limits = Limits(inputBytes: nat, rules: nat, patternBytes: nat, metadataBytes: nat)

  /** The library functions. arrange is the sort of the records, whose comparison is not an order,
      so that all it promises is a permutation. */
  datatype Lib = Lib(
    u: Unicode,
    compiles: string -> bool, errorDetail: string -> string, hint: string -> string,
    bytes: string -> nat, metadataBytes: PackRule -> nat,
    digest: string -> string, decimal: nat -> string, hash: string -> string,
    safePath: string -> bool, utcTime: string -> bool,
    arrange: seq<Record> -> seq<Record>, encode: Pack -> string)

  ghost predicate LibOK(lib: Lib) {
    LikeGo(lib.u) && forall s :: multiset(lib.arrange(s)) == multiset(s)
  }

  // ---------- Groups ----------

  datatype Mapping = Mapping(action: string, category: string, enabled: bool, behaviour: string)

  const GROUPS: seq<string> := ["shield", "intercept", "replace", "nickname", "remind"]

  predicate KnownGroup(g: string) {
    g in GROUPS
  }

  function MappingOf(g: string): Mapping
    requires KnownGroup(g)
  {
    if g == "shield" then Mapping("block", "netease_shield", true, g)
    else if g == "intercept" then Mapping("block", "netease_intercept", true, g)
    else if g == "nickname" then Mapping("review", "nickname", false, g)
    else Mapping("review", "netease_" + g, false, g)
  }

  /** CanonicalGroup's name, known or not. */
  function Canonical(lib: Lib, key: string): string {
    LowerTrim(lib.u, key)
  }

  /** What a group key counts as, when keys are compared. */
  function NameOf(lib: Lib, key: string): string {
    if KnownGroup(Canonical(lib, key)) then Canonical(lib, key) else Lower(lib.u, key)
  }

  // Trimming and lowering commute, because lowering keeps spaces spaces.

  lemma {:induction false} TrimLeftLower(u: Unicode, s: string)
    requires LikeGo(u)
    ensures TrimLeft(u, Lower(u, s)) == Lower(u, TrimLeft(u, s))
  {
    if s != [] && u.space(s[0]) {
      assert u.space(u.lower(s[0])) == u.space(s[0]);
      assert Lower(u, s)[1..] == Lower(u, s[1..]);
      TrimLeftLower(u, s[1..]);
    } else if s != [] {
      assert u.space(u.lower(s[0])) == u.space(s[0]);
    }
  }

  lemma {:induction false} TrimRightLower(u: Unicode, s: string)
    requires LikeGo(u)
    ensures TrimRight(u, Lower(u, s)) == Lower(u, TrimRight(u, s))
  {
    if s != [] {
      assert u.space(u.lower(s[|s| - 1])) == u.space(s[|s| - 1]);
      if u.space(s[|s| - 1]) {
        assert Lower(u, s)[..|s| - 1] == Lower(u, s[..|s| - 1]);
        TrimRightLower(u, s[..|s| - 1]);
      }
    }
  }

  lemma LowerTwice(u: Unicode, s: string)
    requires LikeGo(u)
    ensures Lower(u, Lower(u, s)) == Lower(u, s)
  {
  }

  lemma CanonicalOfLower(lib: Lib, key: string)
    requires LikeGo(lib.u)
    ensures Canonical(lib, Lower(lib.u, key)) == Canonical(lib, key)
    ensures Canonical(lib, Canonical(lib, key)) == Canonical(lib, key)
  {
    var u := lib.u;
    TrimLeftLower(u, key);
    TrimRightLower(u, TrimLeft(u, key));
    LowerTwice(u, Trim(u, key));
    LowerTrimIdempotent(u, key);
  }

  /** Both lookups of the parser together find a key if and only if its name was there before. */
  lemma SeenName(lib: Lib, keys: set<string>, names: set<string>, key: string)
    requires LikeGo(lib.u) && names == set k | k in keys :: NameOf(lib, k)
    ensures (Lower(lib.u, key) in names || (KnownGroup(Canonical(lib, key)) && Canonical(lib, key) in names))
            <==> NameOf(lib, key) in names
  {
    hide Canonical, KnownGroup;
    if Lower(lib.u, key) in names && KnownGroup(Canonical(lib, key)) {
      var k :| k in keys && NameOf(lib, k) == Lower(lib.u, key);
      CanonicalOfLower(lib, key);
      CanonicalOfLower(lib, k);
    }
  }

  // ---------- What a document means ----------

  function ValueType(v: Value): (r: string)
    ensures r != ""
  {
    match v
    case Null => "null" case Str(_) => "string" case Number => "number"
    case Boolean => "boolean" case Array => "array" case Object => "object"
  }

  function BodyOf(lib: Lib, v: Value): Body {
    match v
    case Null => Blank
    case Str(s) => if Trim(lib.u, s) == "" then Blank else Pattern(s)
    case _ => Malformed(ValueType(v))
  }

  function RecordsOf(lib: Lib, group: string, es: seq<Entry>): (rs: seq<Record>)
    ensures |rs| == |es|
    ensures forall i :: 0 <= i < |es| ==> rs[i] == Record(group, es[i].id, BodyOf(lib, es[i].value))
  {
    if es == [] then []
    else RecordsOf(lib, group, es[..|es| - 1]) + [Record(group, es[|es| - 1].id, BodyOf(lib, es[|es| - 1].value))]
  }

  /** The records of the known groups. */
  function KnownRecords(lib: Lib, gs: seq<Group>): seq<Record> {
    if gs == [] then []
    else
      var g, before := gs[|gs| - 1], KnownRecords(lib, gs[..|gs| - 1]);
      if KnownGroup(Canonical(lib, g.key)) && g.entries.Some?
      then before + RecordsOf(lib, Canonical(lib, g.key), g.entries.value)
      else before
  }

  function UnknownGroups(lib: Lib, gs: seq<Group>): seq<Unknown> {
    if gs == [] then []
    else
      var g, before := gs[|gs| - 1], UnknownGroups(lib, gs[..|gs| - 1]);
      if KnownGroup(Canonical(lib, g.key)) || g.entries == None then before
      else before + [Unknown(g.key, |g.entries.value|)]
  }

  /** All entries of all groups. */
  function EntryCount(gs: seq<Group>): nat {
    if gs == [] then 0
    else
      var g := gs[|gs| - 1];
      EntryCount(gs[..|gs| - 1]) + match g.entries { case None => 0 case Some(es) => |es| }
  }

  function UnknownSum(us: seq<Unknown>): nat {
    if us == [] then 0 else UnknownSum(us[..|us| - 1]) + us[|us| - 1].count
  }

  ghost predicate GoodIDs(es: seq<Entry>) {
    (forall i :: 0 <= i < |es| ==> es[i].id != "") && forall i, j :: 0 <= i < j < |es| ==> es[i].id != es[j].id
  }

  /** The regex objects that are accepted. */
  ghost predicate GroupsOK(lib: Lib, lim: Limits, gs: seq<Group>) {
    && (forall i :: 0 <= i < |gs| ==> gs[i].entries.Some? && GoodIDs(gs[i].entries.value))
    && (forall i, j :: 0 <= i < j < |gs| ==> NameOf(lib, gs[i].key) != NameOf(lib, gs[j].key))
    && |KnownRecords(lib, gs)| <= lim.rules
  }

  /** The documents that are accepted: no key twice, up to case, and one of them is regex. */
  ghost predicate DocumentOK(lib: Lib, lim: Limits, tops: seq<Top>) {
    && (forall i, j :: 0 <= i < j < |tops| ==> Lower(lib.u, tops[i].key) != Lower(lib.u, tops[j].key))
    && (exists i :: 0 <= i < |tops| && IsRegex(lib, tops[i]))
    && (forall i :: 0 <= i < |tops| && IsRegex(lib, tops[i]) ==>
                      tops[i].regex.Some? && GroupsOK(lib, lim, tops[i].regex.value))
  }

  predicate IsRegex(lib: Lib, t: Top) {
    Lower(lib.u, t.key) == "regex"
  }

  /** The value of the regex key. */
  ghost function RegexOf(lib: Lib, lim: Limits, tops: seq<Top>): seq<Group>
    requires DocumentOK(lib, lim, tops)
  {
    var i :| 0 <= i < |tops| && IsRegex(lib, tops[i]);
    tops[i].regex.value
  }

  /** Nothing is lost: each entry is a record, or counted in an unknown group. */
  lemma {:induction false} EntriesAccounted(lib: Lib, gs: seq<Group>)
    ensures |KnownRecords(lib, gs)| + UnknownSum(UnknownGroups(lib, gs)) == EntryCount(gs)
  {
    hide Canonical, KnownGroup;
    if gs != [] {
      var g, init := gs[|gs| - 1], gs[..|gs| - 1];
      EntriesAccounted(lib, init);
      if !KnownGroup(Canonical(lib, g.key)) && g.entries.Some? {
        var us := UnknownGroups(lib, init) + [Unknown(g.key, |g.entries.value|)];
        assert us[..|us| - 1] == UnknownGroups(lib, init);
      }
    }
  }

  /** A record's group and ID. */
  ghost predicate DistinctRecords(rs: seq<Record>) {
    forall i, j :: 0 <= i < j < |rs| ==> (rs[i].group, rs[i].id) != (rs[j].group, rs[j].id)
  }

  ghost predicate RecordOK(r: Record) {
    KnownGroup(r.group) && r.id != "" && (r.body.Pattern? ==> r.body.regex != "")
    && (r.body.Malformed? ==> r.body.valueType != "")
  }

  lemma RecordsOfOK(lib: Lib, group: string, es: seq<Entry>)
    requires KnownGroup(group) && GoodIDs(es)
    ensures DistinctRecords(RecordsOf(lib, group, es))
    ensures forall i :: 0 <= i < |es| ==> RecordOK(RecordsOf(lib, group, es)[i]) && RecordsOf(lib, group, es)[i].group == group
  {
  }

  /** The parser's checks make (group, ID) pairs distinct, over the whole document. */
  lemma {:induction false} KnownRecordsDistinct(lib: Lib, gs: seq<Group>)
    requires forall i :: 0 <= i < |gs| ==> gs[i].entries.Some? && GoodIDs(gs[i].entries.value)
    requires forall i, j :: 0 <= i < j < |gs| ==> NameOf(lib, gs[i].key) != NameOf(lib, gs[j].key)
    ensures var rs := KnownRecords(lib, gs);
            && DistinctRecords(rs)
            && (forall i :: 0 <= i < |rs| ==> RecordOK(rs[i]) && exists k :: 0 <= k < |gs| && rs[i].group == NameOf(lib, gs[k].key))
  {
    hide Canonical, KnownGroup, GoodIDs, RecordOK;
    if gs != [] {
      var g, init := gs[|gs| - 1], gs[..|gs| - 1];
      KnownRecordsDistinct(lib, init);
      var before := KnownRecords(lib, init);
      forall i | 0 <= i < |before|
        ensures before[i].group != NameOf(lib, g.key) && exists k :: 0 <= k < |gs| && before[i].group == NameOf(lib, gs[k].key)
      {
        var k :| 0 <= k < |init| && before[i].group == NameOf(lib, init[k].key);
        assert gs[k] == init[k];
      }
      if KnownGroup(Canonical(lib, g.key)) {
        RecordsOfOK(lib, Canonical(lib, g.key), g.entries.value);
        assert NameOf(lib, g.key) == NameOf(lib, gs[|gs| - 1].key);
      }
    }
  }

  // ---------- The pack ----------

  const PROVIDER: string := "netease"
  const NOT_CHECKED: string := "not_checked"
  const PCRE2_COMPATIBLE: string := "compatible"
  const PCRE2_INCOMPATIBLE: string := "incompatible"

  datatype Header = Header(
    schema: int, provider: string, dataset: string, repository: string, commit: string, path: string,
    inputSHA: string, license: string, timestamp: string, generator: string, generatorVersion: string)

  datatype NameCount = NameCount(name: string, count: nat)

  datatype Counts = Counts(
    total: nat, parsed: nat, imported: nat, empty: nat, malformed: nat, unknown: nat,
    duplicateIdentities: nat, duplicateRegex: nat, compatible: nat, incompatible: nat, disabled: nat,
    byDataset: seq<NameCount>, byGroup: seq<NameCount>, pcre2: seq<NameCount>)

  datatype PackRule = PackRule(
    id: string, provider: string, dataset: string, group: string, upstreamID: string, regex: string,
    kind: string, category: string, risk: string, action: string, score: int, source: string,
    tags: seq<string>, description: string, enabled: bool, behaviour: string,
    compatible: bool, error: string, hint: string, pcre2: string)

  datatype Pack = Pack(header: Header, counts: Counts, rules: seq<PackRule>)

  predicate ValidDataset(d: string) {
    d == "g79" || d == "x19"
  }

  predicate IsHex(s: string, n: nat) {
    |s| == n && forall i :: 0 <= i < n ==> '0' <= s[i] <= '9' || 'a' <= s[i] <= 'f' || 'A' <= s[i] <= 'F'
  }

  predicate HeaderOK(lib: Lib, h: Header) {
    && h.schema == 1 && h.provider == PROVIDER && ValidDataset(h.dataset)
    && Trim(lib.u, h.repository) != "" && IsHex(h.commit, 40) && lib.safePath(h.path) && IsHex(h.inputSHA, 64)
    && h.license != "" && h.generator != "" && h.generatorVersion != "" && lib.utcTime(h.timestamp)
  }

  function TagsOf(dataset: string, group: string): seq<string> {
    ["bundled", "provider:netease", "dataset:" + dataset, group]
  }

  /** What a pack's validation asks of one rule. */
  predicate RuleOK(lib: Lib, lim: Limits, h: Header, r: PackRule) {
    && r.provider == h.provider && r.dataset == h.dataset && KnownGroup(r.group)
    && r.upstreamID != "" && r.id != "" && r.kind == "regex" && r.regex != ""
    && r.source == "bundled:netease" && r.risk == "high" && r.score == 90
    && r.tags == TagsOf(h.dataset, r.group) && r.description != "" && r.behaviour == MappingOf(r.group).behaviour
    && lib.bytes(r.regex) <= lim.patternBytes && lib.metadataBytes(r) <= lim.metadataBytes
    && r.pcre2 in [NOT_CHECKED, PCRE2_COMPATIBLE, PCRE2_INCOMPATIBLE]
    && (r.compatible <==> r.error == "")
    && r.action == MappingOf(r.group).action && r.category == MappingOf(r.group).category
    && r.enabled == MappingOf(r.group).enabled
  }

  // ---------- Counting ----------

  function Count(f: PackRule -> bool, rs: seq<PackRule>): nat {
    if rs == [] then 0 else Count(f, rs[..|rs| - 1]) + if f(rs[|rs| - 1]) then 1 else 0
  }

  lemma CountSnoc(f: PackRule -> bool, rs: seq<PackRule>, r: PackRule)
    ensures Count(f, rs + [r]) == Count(f, rs) + if f(r) then 1 else 0
  {
  }

  function Compatible(): PackRule -> bool {
    (r: PackRule) => r.compatible
  }

  function Incompatible(): PackRule -> bool {
    (r: PackRule) => !r.compatible
  }

  function Disabled(): PackRule -> bool {
    (r: PackRule) => !r.enabled
  }

  function InGroup(g: string): PackRule -> bool {
    (r: PackRule) => r.group == g
  }

  function HasStatus(s: string): PackRule -> bool {
    (r: PackRule) => r.pcre2 == s
  }

  function Regexes(rs: seq<PackRule>): set<string> {
    set r | r in rs :: r.regex
  }

  lemma RegexesSnoc(rs: seq<PackRule>, r: PackRule)
    ensures Regexes(rs + [r]) == Regexes(rs) + {r.regex}
  {
  }

  function GroupCounts(rs: seq<PackRule>): seq<NameCount> {
    seq(|GROUPS|, i requires 0 <= i < |GROUPS| => NameCount(GROUPS[i], Count(InGroup(GROUPS[i]), rs)))
  }

  function StatusCounts(rs: seq<PackRule>): seq<NameCount> {
    var c, i := Count(HasStatus(PCRE2_COMPATIBLE), rs), Count(HasStatus(PCRE2_INCOMPATIBLE), rs);
    [NameCount(NOT_CHECKED, Count(HasStatus(NOT_CHECKED), rs))]
    + (if c > 0 then [NameCount(PCRE2_COMPATIBLE, c)] else [])
    + (if i > 0 then [NameCount(PCRE2_INCOMPATIBLE, i)] else [])
  }

  /** The counts that follow from the rules: how many patterns repeat an earlier one, is how many
      more rules than different patterns there are. */
  ghost predicate CountsMatch(c: Counts, dataset: string, rs: seq<PackRule>) {
    && c.parsed == |rs| && c.imported == |rs|
    && c.duplicateRegex == |rs| - |Regexes(rs)|
    && c.compatible == Count(Compatible(), rs) && c.incompatible == Count(Incompatible(), rs)
    && c.disabled == Count(Disabled(), rs)
    && c.byDataset == [NameCount(dataset, |rs|)] && c.byGroup == GroupCounts(rs) && c.pcre2 == StatusCounts(rs)
  }

  ghost predicate DistinctRuleIDs(rs: seq<PackRule>) {
    forall i, j :: 0 <= i < j < |rs| ==> rs[i].id != rs[j].id
  }

  /** The packs that pass validation. */
  ghost predicate PackOK(lib: Lib, lim: Limits, p: Pack) {
    && HeaderOK(lib, p.header) && p.counts.duplicateIdentities == 0 && |p.rules| <= lim.rules
    && (forall i :: 0 <= i < |p.rules| ==> RuleOK(lib, lim, p.header, p.rules[i]))
    && DistinctRuleIDs(p.rules)
    && p.counts.total == p.counts.imported + p.counts.empty + p.counts.malformed + p.counts.unknown
    && CountsMatch(p.counts, p.header.dataset, p.rules)
  }

  // ---------- From records to rules ----------

  function StableKey(lib: Lib, dataset: string, group: string, id: string, n: nat): string {
    dataset + ":" + group + ":" + id + ":" + lib.decimal(n)
  }

  function StableID(lib: Lib, dataset: string, group: string, id: string, n: nat): (r: string)
    ensures r != ""
  {
    "netease_" + dataset + "_" + group + "_" + lib.digest(StableKey(lib, dataset, group, id, n))
  }

  function ErrorText(lib: Lib, lim: Limits, p: string): string {
    if lib.bytes(p) > lim.patternBytes then "pattern exceeds size limit"
    else if lib.compiles(p) then ""
    else "error parsing regexp: " + lib.errorDetail(p)
  }

  function RuleFor(lib: Lib, lim: Limits, dataset: string, r: Record): PackRule
    requires r.body.Pattern? && KnownGroup(r.group)
  {
    var p, m, e := r.body.regex, MappingOf(r.group), ErrorText(lib, lim, r.body.regex);
    PackRule(StableID(lib, dataset, r.group, r.id, 1), PROVIDER, dataset, r.group, r.id, p, "regex", m.category, "high",
             m.action, 90, "bundled:netease", TagsOf(dataset, r.group), "NetEase bundled " + r.group + " regex",
             m.enabled, m.behaviour, e == "", e,
             if e == "" then "" else if lib.bytes(p) > lim.patternBytes then "invalid_syntax" else lib.hint(p), NOT_CHECKED)
  }

  ghost predicate RecordsOK(rs: seq<Record>) {
    forall i :: 0 <= i < |rs| ==> RecordOK(rs[i])
  }

  /** The rules of the records that have a pattern, in order. */
  function RulesFor(lib: Lib, lim: Limits, dataset: string, rs: seq<Record>): seq<PackRule>
    requires forall i :: 0 <= i < |rs| ==> KnownGroup(rs[i].group)
  {
    if rs == [] then []
    else
      var r := rs[|rs| - 1];
      RulesFor(lib, lim, dataset, rs[..|rs| - 1]) + if r.body.Pattern? then [RuleFor(lib, lim, dataset, r)] else []
  }

  function CountBlank(rs: seq<Record>): nat {
    if rs == [] then 0 else CountBlank(rs[..|rs| - 1]) + if rs[|rs| - 1].body.Blank? then 1 else 0
  }

  datatype Detail = Detail(dataset: string, group: string, id: string, reason: string, valueType: string)

  function DetailsFor(dataset: string, rs: seq<Record>): seq<Detail> {
    if rs == [] then []
    else
      var r := rs[|rs| - 1];
      DetailsFor(dataset, rs[..|rs| - 1])
      + if r.body.Malformed? then [Detail(dataset, r.group, r.id, "value must be a string or null", r.body.valueType)] else []
  }

  datatype Failure = Failure(dataset: string, group: string, id: string, ruleID: string, patternSHA: string, error: string, hint: string)

  function FailureOf(lib: Lib, r: PackRule): Failure {
    Failure(r.dataset, r.group, r.upstreamID, r.id, lib.hash(r.regex), r.error, r.hint)
  }

  /** One failure for each incompatible rule, in order. */
  function FailuresOf(lib: Lib, rs: seq<PackRule>): seq<Failure> {
    if rs == [] then []
    else
      var r := rs[|rs| - 1];
      FailuresOf(lib, rs[..|rs| - 1]) + if r.compatible then [] else [FailureOf(lib, r)]
  }

  // ---------- The report ----------

  datatype Report = Report(
    schema: int, packSHA: string, packBytes: nat, provider: string, dataset: string, repository: string,
    commit: string, path: string, inputSHA: string, counts: Counts, unknown: seq<Unknown>,
    details: seq<Detail>, failures: seq<Failure>, outputs: seq<string>)

  ghost predicate UnknownOK(us: seq<Unknown>) {
    && (forall i :: 0 <= i < |us| ==> us[i].name != "")
    && (forall i, j :: 0 <= i < j < |us| ==> us[i].name != us[j].name)
  }

  predicate DetailOK(dataset: string, d: Detail) {
    d.dataset == dataset && d.id != "" && d.reason != "" && d.valueType != "" && KnownGroup(d.group)
  }

  /** Each incompatible rule has its failure, no compatible rule has one, and there are no others. */
  ghost predicate FailuresOK(lib: Lib, fs: seq<Failure>, rs: seq<PackRule>) {
    && (forall i :: 0 <= i < |fs| ==> fs[i].ruleID != "")
    && (forall i, j :: 0 <= i < j < |fs| ==> fs[i].ruleID != fs[j].ruleID)
    && (forall k :: 0 <= k < |rs| && rs[k].compatible ==> forall i :: 0 <= i < |fs| ==> fs[i].ruleID != rs[k].id)
    && (forall k :: 0 <= k < |rs| && !rs[k].compatible ==> FailureOf(lib, rs[k]) in fs)
    && Count(Incompatible(), rs) == |fs|
  }

  predicate SameProvenance(rep: Report, h: Header) {
    && rep.provider == h.provider && rep.dataset == h.dataset && rep.repository == h.repository
    && rep.commit == h.commit && rep.path == h.path && rep.inputSHA == h.inputSHA
  }

  /** The reports that pass validation against a pack and its bytes. */
  ghost predicate ReportOK(lib: Lib, rep: Report, p: Pack, bytes: string) {
    && rep.schema == 1 && rep.packSHA == lib.hash(bytes) && rep.packBytes == |bytes|
    && SameProvenance(rep, p.header) && rep.counts == p.counts
    && UnknownOK(rep.unknown) && UnknownSum(rep.unknown) == rep.counts.unknown
    && |rep.details| == rep.counts.malformed
    && (forall i :: 0 <= i < |rep.details| ==> DetailOK(p.header.dataset, rep.details[i]))
    && FailuresOK(lib, rep.failures, p.rules)
    && (forall i :: 0 <= i < |rep.outputs| ==> Trim(lib.u, rep.outputs[i]) != "")
  }
}
