/** The word list importer: classifying lines, removing duplicates, and cutting the groups into files. */
module Importer {
  import opened Ordering
  import opened Text
  import opened Wrappers

  // ---------- Lines ----------

  /** The library functions and options that a line's fate depends on. */
  datatype Lib = Lib(
    u: Unicode, compiles: string -> bool,
    domain: string -> Option<string>,      // isDomain, with the value it extracts
    inferType: (string, string) -> string, // InferType, from the file and the line
    maxLineRunes: nat)

  /** category is what inferCategory gives: letters, digits and underscores. */
  datatype File = File(rel: string, category: string, lines: seq<string>)

  predicate IsComment(line: string) {
    (|line| >= 1 && (line[0] == '#' || line[0] == ';')) || (|line| >= 2 && line[0] == '/' && line[1] == '/')
  }

  datatype Fate = Skipped | Invalid | Value(kind: string, value: string)

  /** What becomes of a line, apart from duplicates. */
  function FateOf(lib: Lib, rel: string, raw: string): Fate {
    var line := Trim(lib.u, raw);
    if NUL in line || |line| > lib.maxLineRunes then Invalid
    else if line == "" || IsComment(line) then Skipped
    else
      var kind := lib.inferType(rel, line);
      if kind == "domain" then
        match lib.domain(line) { case Some(v) => Value(kind, v) case None => Invalid }
      else if kind == "regex" && !lib.compiles(line) then Invalid
      else Value(kind, line)
  }

  /** Types and domains never contain NUL. */
  ghost predicate LibOK(lib: Lib) {
    && (forall r, l :: NUL !in lib.inferType(r, l))
    && (forall l :: lib.domain(l).Some? ==> NUL !in lib.domain(l).value)
  }

  ghost predicate FileOK(f: File) {
    NUL !in f.category && '/' !in f.category
  }

  // ---------- Lines in plain words ----------

  ghost predicate Legible(lib: Lib, line: string) {
    NUL !in line && |line| <= lib.maxLineRunes
  }

  ghost predicate Remark(line: string) {
    line == "" || line[0] in "#;" || "//" <= line
  }

  /** The line holds a value of the type. */
  ghost predicate Holds(lib: Lib, rel: string, raw: string, kind: string, value: string) {
    var line := Trim(lib.u, raw);
    && Legible(lib, line) && !Remark(line) && kind == lib.inferType(rel, line)
    && (if kind == "domain" then lib.domain(line) == Some(value) else value == line)
    && (kind == "regex" ==> lib.compiles(line))
  }

  /** What a line is that holds no value. */
  ghost predicate Reads(lib: Lib, rel: string, raw: string, k: Kind) {
    var line := Trim(lib.u, raw);
    match k
    case Blank => Legible(lib, line) && Remark(line)
    case Bad => !Legible(lib, line) || (!Remark(line) && forall kind, value :: !Holds(lib, rel, raw, kind, value))
    case BadRegex => Legible(lib, line) && !Remark(line) && lib.inferType(rel, line) == "regex" && !lib.compiles(line)
  }

  /** A line is left out if it is blank or a remark, and invalid if it cannot be read or does not hold what
      its type asks for. */
  lemma LineFate(lib: Lib, rel: string, raw: string)
    ensures var line, fate := Trim(lib.u, raw), FateOf(lib, rel, raw);
            && (fate.Skipped? <==> Legible(lib, line) && Remark(line))
            && (forall kind, value :: fate == Value(kind, value) <==> Holds(lib, rel, raw, kind, value))
            && (fate.Invalid? <==> !Legible(lib, line) || (!Remark(line) && forall kind, value :: !Holds(lib, rel, raw, kind, value)))
    ensures forall k :: IsKind(lib, rel, raw, k) <==> Reads(lib, rel, raw, k)
  {
    hide Trim;
    var fate := FateOf(lib, rel, raw);
    if fate.Value? {
      assert Holds(lib, rel, raw, fate.kind, fate.value);
    }
  }

  // ---------- Groups ----------

  function GroupKey(category: string, kind: string): string {
    category + ['/'] + kind
  }

  /** A group's key gives the category and the type back: the category ends at the first slash. */
  lemma GroupKeyInjective(c: string, k: string, d: string, l: string)
    requires '/' !in c && '/' !in d && GroupKey(c, k) == GroupKey(d, l)
    ensures c == d && k == l
  {
    SplitSame(c, d, k, l, '/');
  }

  function BatchKey(category: string, kind: string, value: string): string {
    category + [NUL] + (kind + [NUL] + value)
  }

  lemma BatchKeyInjective(c: string, k: string, v: string, d: string, l: string, w: string)
    requires NUL !in c && NUL !in d && NUL !in k && NUL !in l && BatchKey(c, k, v) == BatchKey(d, l, w)
    ensures c == d && k == l && v == w
  {
    SplitSame(c, d, k + [NUL] + v, l + [NUL] + w, NUL);
    SplitSame(k, l, v, w, NUL);
  }

  // ---------- Counters ----------

  ghost function Sum(m: map<string, nat>): nat
    decreases |m|
  {
    if m == map[] then 0
    else
      var k :| k in m;
      m[k] + Sum(m - {k})
  }

  lemma {:induction false} SumWithout(m: map<string, nat>, k: string)
    requires k in m
    ensures Sum(m) == m[k] + Sum(m - {k})
    decreases |m|
  {
    var j :| j in m && Sum(m) == m[j] + Sum(m - {j});
    if j != k {
      SumWithout(m - {j}, k);
      SumWithout(m - {k}, j);
      assert m - {j} - {k} == m - {k} - {j};
    }
  }

  lemma SumBump(m: map<string, nat>, k: string)
    ensures Sum(m[k := Get(m, k) + 1]) == Sum(m) + 1
  {
    var n := m[k := Get(m, k) + 1];
    SumWithout(n, k);
    if k in m {
      SumWithout(m, k);
      assert n - {k} == m - {k};
    } else {
      assert n - {k} == m;
    }
  }

  datatype Report = Report(
    files: nat, lines: nat, skipped: nat, invalid: nat, invalidRegex: nat, duplicates: nat,
    categories: map<string, nat>, kinds: map<string, nat>, keywords: nat, domains: nat, regexes: nat)

  /** Every line is counted once: as blank or a comment, as invalid, as a duplicate, or under its type
      and its category. */
  ghost predicate Conserved(r: Report) {
    && r.lines == r.skipped + r.invalid + r.duplicates + Sum(r.kinds)
    && Sum(r.categories) == Sum(r.kinds) && r.invalidRegex <= r.invalid
    && r.keywords == Get(r.kinds, "keyword") && r.domains == Get(r.kinds, "domain") && r.regexes == Get(r.kinds, "regex")
  }

  type Groups = map<string, seq<string>>

  function InGroup(g: Groups, key: string): seq<string> {
    if key in g then g[key] else []
  }

  /** The value has been seen: in the group key, among the accepted lines. */
  datatype Accepted = Accepted(category: string, kind: string, value: string)

  /** What the lines of a file up to the n-th accept. */
  ghost function AcceptedIn(lib: Lib, f: File, n: nat): set<Accepted>
    requires n <= |f.lines|
  {
    set i | 0 <= i < n && FateOf(lib, f.rel, f.lines[i]).Value? ::
      Accepted(f.category, FateOf(lib, f.rel, f.lines[i]).kind, FateOf(lib, f.rel, f.lines[i]).value)
  }

  ghost function AcceptedBy(lib: Lib, fs: seq<File>): set<Accepted> {
    if fs == [] then {}
    else AcceptedBy(lib, fs[..|fs| - 1]) + AcceptedIn(lib, fs[|fs| - 1], |fs[|fs| - 1].lines|)
  }

  /** The groups hold exactly the accepted values, under their category and type. */
  ghost predicate GroupsHold(g: Groups, acc: set<Accepted>) {
    && (forall a :: a in acc ==> a.value in InGroup(g, GroupKey(a.category, a.kind)))
    && (forall k, i :: k in g && 0 <= i < |g[k]| ==> Backed(acc, k, g[k][i]))
  }

  ghost predicate Backed(acc: set<Accepted>, key: string, value: string) {
    exists a :: a in acc && GroupKey(a.category, a.kind) == key && a.value == value
  }

  ghost predicate NoRepeats(g: Groups) {
    forall k :: k in g ==> NoDuplicates(g[k])
  }

  /** The keys seen so far are those of the accepted values. */
  ghost predicate BatchSeen(seen: set<string>, acc: set<Accepted>) {
    && (forall a :: a in acc ==> BatchKey(a.category, a.kind, a.value) in seen && NUL !in a.category && NUL !in a.kind && '/' !in a.category)
    && (forall s :: s in seen ==> exists a :: a in acc && BatchKey(a.category, a.kind, a.value) == s)
  }

  /** A value whose key has been seen is accepted already, and in its group. */
  lemma SeenBatch(seen: set<string>, acc: set<Accepted>, g: Groups, a: Accepted)
    requires BatchSeen(seen, acc) && NUL !in a.category && NUL !in a.kind && '/' !in a.category && GroupsHold(g, acc)
    ensures BatchKey(a.category, a.kind, a.value) in seen <==> a in acc
    ensures a !in acc ==> a.value !in InGroup(g, GroupKey(a.category, a.kind))
  {
    hide BatchKey, GroupKey;
    if BatchKey(a.category, a.kind, a.value) in seen {
      var b :| b in acc && BatchKey(b.category, b.kind, b.value) == BatchKey(a.category, a.kind, a.value);
      BatchKeyInjective(a.category, a.kind, a.value, b.category, b.kind, b.value);
    }
    var key := GroupKey(a.category, a.kind);
    if a.value in InGroup(g, key) {
      var i :| 0 <= i < |g[key]| && g[key][i] == a.value;
      assert Backed(acc, key, g[key][i]);
      var b :| b in acc && GroupKey(b.category, b.kind) == key && b.value == g[key][i];
      GroupKeyInjective(a.category, a.kind, b.category, b.kind);
    }
  }

  function AddTo(g: Groups, a: Accepted): Groups {
    var key := GroupKey(a.category, a.kind);
    g[key := InGroup(g, key) + [a.value]]
  }

  lemma AddKeepsHold(g: Groups, acc: set<Accepted>, a: Accepted)
    requires GroupsHold(g, acc)
    ensures GroupsHold(AddTo(g, a), acc + {a})
    ensures NoRepeats(g) && a.value !in InGroup(g, GroupKey(a.category, a.kind)) ==> NoRepeats(AddTo(g, a))
  {
    hide GroupKey;
    var key, h := GroupKey(a.category, a.kind), AddTo(g, a);
    forall b | b in acc + {a} ensures b.value in InGroup(h, GroupKey(b.category, b.kind)) {
      assert h[key][|h[key]| - 1] == a.value;
      if b != a {
        var k := GroupKey(b.category, b.kind);
        assert b.value in InGroup(g, k);
        assert InGroup(g, k) <= InGroup(h, k);
        var i :| 0 <= i < |InGroup(g, k)| && InGroup(g, k)[i] == b.value;
        assert InGroup(h, k)[i] == b.value;
      }
    }
    forall k, i | k in h && 0 <= i < |h[k]| ensures Backed(acc + {a}, k, h[k][i]) {
      if k == key && i == |h[k]| - 1 {
        assert a in acc + {a};
      } else {
        assert k in g && h[k][i] == g[k][i];
        assert Backed(acc, k, g[k][i]);
        var b :| b in acc && GroupKey(b.category, b.kind) == k && b.value == g[k][i];
        assert b in acc + {a};
      }
    }
  }

  // ---------- The line loop ----------

  datatype Scope = Batch | PerFile

  datatype Import = Import(report: Report, groups: Groups, seenBatch: set<string>, seenFile: set<string>)

  /** The loop's state after the values acc. */
  ghost predicate ImportOf(scope: Scope, s: Import, acc: set<Accepted>) {
    && Conserved(s.report) && GroupsHold(s.groups, acc)
    && (scope == Batch ==> BatchSeen(s.seenBatch, acc) && NoRepeats(s.groups))
  }

  /** The file's own keys: type and value. */
  function FileKey(kind: string, value: string): string {
    kind + [NUL] + value
  }

  /** The keys seen in a file are those of the values mine. */
  ghost predicate FileSeen(seen: set<string>, mine: set<Accepted>, category: string) {
    && (forall a :: a in mine ==> FileKey(a.kind, a.value) in seen && a.category == category && NUL !in a.kind)
    && (forall s :: s in seen ==> exists a :: a in mine && FileKey(a.kind, a.value) == s)
  }

  lemma SeenInFile(seen: set<string>, mine: set<Accepted>, a: Accepted)
    requires FileSeen(seen, mine, a.category) && NUL !in a.kind
    ensures FileKey(a.kind, a.value) in seen <==> a in mine
  {
    if FileKey(a.kind, a.value) in seen {
      var b :| b in mine && FileKey(b.kind, b.value) == FileKey(a.kind, a.value);
      SplitSame(a.kind, b.kind, a.value, b.value, NUL);
    }
  }

  ghost function OfKind(acc: set<Accepted>, kind: string): set<Accepted> {
    set a | a in acc && a.kind == kind
  }

  /** The values that make another one a duplicate: those of the batch, or those of the file. */
  ghost function Known(scope: Scope, before: set<Accepted>, mine: set<Accepted>): set<Accepted> {
    if scope == Batch then before + mine else mine
  }

  /** Since the report base at the start of a file, each type has gone up by its new values. */
  ghost predicate KindsCounted(scope: Scope, base: Report, r: Report, before: set<Accepted>, mine: set<Accepted>) {
    forall k :: Get(r.kinds, k) + |OfKind(Known(scope, before, {}), k)| == Get(base.kinds, k) + |OfKind(Known(scope, before, mine), k)|
  }

  lemma OneMore(acc: set<Accepted>, a: Accepted, k: string)
    ensures |OfKind(acc + {a}, k)| == |OfKind(acc, k)| + if a.kind == k && a !in acc then 1 else 0
  {
    if a.kind == k && a !in acc {
      assert OfKind(acc + {a}, k) == OfKind(acc, k) + {a};
    } else {
      assert OfKind(acc + {a}, k) == OfKind(acc, k);
    }
  }

  lemma OfKindMore(acc: set<Accepted>, a: Accepted)
    ensures forall k :: |OfKind(acc + {a}, k)| == |OfKind(acc, k)| + if a.kind == k && a !in acc then 1 else 0
  {
    hide OfKind;
    forall k { OneMore(acc, a, k); }
  }

  lemma KindsMore(scope: Scope, base: Report, r: Report, s: Report, before: set<Accepted>, mine: set<Accepted>, a: Accepted)
    requires KindsCounted(scope, base, r, before, mine)
    requires forall k :: Get(s.kinds, k) == Get(r.kinds, k) + if k == a.kind && a !in Known(scope, before, mine) then 1 else 0
    ensures KindsCounted(scope, base, s, before, mine + {a})
  {
    hide OfKind, Get;
    OfKindMore(Known(scope, before, mine), a);
    assert Known(scope, before, mine + {a}) == Known(scope, before, mine) + {a};
  }

  lemma CountLine(r: Report, s: Report)
    requires Conserved(r)
    requires || s == r.(lines := r.lines + 1, skipped := r.skipped + 1)
             || s == r.(lines := r.lines + 1, invalid := r.invalid + 1)
             || s == r.(lines := r.lines + 1, invalid := r.invalid + 1, invalidRegex := r.invalidRegex + 1)
             || s == r.(lines := r.lines + 1, duplicates := r.duplicates + 1)
    ensures Conserved(s)
  {
  }

  function CountValue(r: Report, category: string, kind: string): Report {
    r.(lines := r.lines + 1,
       categories := r.categories[category := Get(r.categories, category) + 1],
       kinds := r.kinds[kind := Get(r.kinds, kind) + 1],
       keywords := r.keywords + (if kind == "keyword" then 1 else 0),
       domains := r.domains + (if kind == "domain" then 1 else 0),
       regexes := r.regexes + (if kind == "regex" then 1 else 0))
  }

  lemma CountAccepted(r: Report, category: string, kind: string)
    requires Conserved(r)
    ensures Conserved(CountValue(r, category, kind))
  {
    SumBump(r.kinds, kind);
    SumBump(r.categories, category);
  }

  /** One line that is a value: a duplicate of the batch or of the file, or added to its group. */
  method ImportValue(scope: Scope, s: Import, category: string, kind: string, value: string,
                     ghost before: set<Accepted>, ghost mine: set<Accepted>)
    returns (s': Import)
    requires ImportOf(scope, s, before + mine) && (scope == PerFile ==> FileSeen(s.seenFile, mine, category))
    requires NUL !in category && NUL !in kind && '/' !in category
    ensures var a := Accepted(category, kind, value);
            && ImportOf(scope, s', before + (mine + {a})) && (scope == PerFile ==> FileSeen(s'.seenFile, mine + {a}, category))
            && s'.report == if a in Known(scope, before, mine)
                            then s.report.(lines := s.report.lines + 1, duplicates := s.report.duplicates + 1)
                            else CountValue(s.report, category, kind)
  {
    hide Conserved, GroupsHold, BatchSeen, NoRepeats, BatchKey, GroupKey, FileKey, FileSeen, CountValue;
    var a := Accepted(category, kind, value);
    ghost var acc := before + mine;
    assert before + (mine + {a}) == acc + {a};
    var r := s.report;
    s' := s;
    CountLine(r, r.(lines := r.lines + 1, duplicates := r.duplicates + 1));
    CountAccepted(r, category, kind);
    AddKeepsHold(s.groups, acc, a);
    if scope == Batch {
      var key := BatchKey(category, kind, value);
      SeenBatch(s.seenBatch, acc, s.groups, a);
      if key in s.seenBatch {
        assert acc + {a} == acc;
        return s'.(report := r.(lines := r.lines + 1, duplicates := r.duplicates + 1));
      }
      MoreSeen(s.seenBatch, acc, a);
      s' := s'.(seenBatch := s.seenBatch + {key});
    } else {
      var key := FileKey(kind, value);
      SeenInFile(s.seenFile, mine, a);
      if key in s.seenFile {
        assert acc + {a} == acc && mine + {a} == mine;
        return s'.(report := r.(lines := r.lines + 1, duplicates := r.duplicates + 1));
      }
      MoreFileSeen(s.seenFile, mine, a, category);
      s' := s'.(seenFile := s.seenFile + {key});
    }
    s' := s'.(groups := AddTo(s.groups, a), report := CountValue(r, category, kind));
  }

  lemma MoreSeen(seen: set<string>, acc: set<Accepted>, a: Accepted)
    requires BatchSeen(seen, acc) && NUL !in a.category && NUL !in a.kind && '/' !in a.category
    ensures BatchSeen(seen + {BatchKey(a.category, a.kind, a.value)}, acc + {a})
  {
  }

  lemma MoreFileSeen(seen: set<string>, mine: set<Accepted>, a: Accepted, category: string)
    requires FileSeen(seen, mine, category) && a.category == category && NUL !in a.kind
    ensures FileSeen(seen + {FileKey(a.kind, a.value)}, mine + {a}, category)
  {
    hide FileKey;
    forall s | s in seen + {FileKey(a.kind, a.value)} ensures exists b :: b in mine + {a} && FileKey(b.kind, b.value) == s {
      if s in seen {
        var b :| b in mine && FileKey(b.kind, b.value) == s;
        assert b in mine + {a};
      } else {
        assert a in mine + {a};
      }
    }
  }

  lemma ValueFacts(lib: Lib, rel: string, raw: string)
    requires LibOK(lib) && FateOf(lib, rel, raw).Value?
    ensures NUL !in FateOf(lib, rel, raw).kind
  {
  }

  /** The line is invalid because it is a regular expression that does not compile. */
  predicate InvalidRegex(lib: Lib, rel: string, raw: string) {
    var line := Trim(lib.u, raw);
    NUL !in line && |line| <= lib.maxLineRunes && lib.inferType(rel, line) == "regex" && !lib.compiles(line)
  }

  datatype Kind = Blank | Bad | BadRegex

  predicate IsKind(lib: Lib, rel: string, raw: string, k: Kind) {
    match k
    case Blank => FateOf(lib, rel, raw).Skipped?
    case Bad => FateOf(lib, rel, raw).Invalid?
    case BadRegex => FateOf(lib, rel, raw).Invalid? && InvalidRegex(lib, rel, raw)
  }

  /** How many of the first n lines are of a kind, and what the report says of it. */
  function CountIn(lib: Lib, f: File, n: nat, k: Kind): nat
    requires n <= |f.lines|
  {
    if n == 0 then 0 else CountIn(lib, f, n - 1, k) + if IsKind(lib, f.rel, f.lines[n - 1], k) then 1 else 0
  }

  function Shown(r: Report, k: Kind): nat {
    match k
    case Blank => r.skipped
    case Bad => r.invalid
    case BadRegex => r.invalidRegex
  }

  /** The lines of one file; a strict import stops at the first invalid line. */
  method ImportFile(lib: Lib, scope: Scope, strict: bool, f: File, s: Import, ghost acc: set<Accepted>) returns (r: Option<Import>)
    requires LibOK(lib) && FileOK(f) && ImportOf(scope, s, acc)
    ensures r == None <==> strict && CountIn(lib, f, |f.lines|, Bad) > 0
    ensures r.Some? ==> ImportOf(scope, r.value, acc + AcceptedIn(lib, f, |f.lines|))
                        && r.value.report.lines == s.report.lines + |f.lines|
                        && KindsCounted(scope, s.report, r.value.report, acc, AcceptedIn(lib, f, |f.lines|))
                        && forall k :: Shown(r.value.report, k) == Shown(s.report, k) + CountIn(lib, f, |f.lines|, k)
  {
    hide ImportOf, FateOf, FileSeen, KindsCounted, InvalidRegex, Known, FileOK, LibOK, Shown, CountIn, Tallied;
    TalliedNone(lib, f, s.report);
    var t := s.(seenFile := {}, report := s.report.(files := s.report.files + 1));
    NewFile(scope, s, t, acc, f.category);
    assert AcceptedIn(lib, f, 0) == {};
    assert acc + {} == acc;
    FilePlain(f);
    for i := 0 to |f.lines|
      invariant ImportOf(scope, t, acc + AcceptedIn(lib, f, i)) && (scope == PerFile ==> FileSeen(t.seenFile, AcceptedIn(lib, f, i), f.category))
      invariant t.report.lines == s.report.lines + i && KindsCounted(scope, s.report, t.report, acc, AcceptedIn(lib, f, i))
      invariant Tallied(lib, f, i, s.report, t.report) && (strict ==> CountIn(lib, f, i, Bad) == 0)
    {
      ghost var tally := t.report;
      AcceptedMore(lib, f, i);
      assert AcceptedIn(lib, f, i) + {} == AcceptedIn(lib, f, i);
      var fate, rep := FateOf(lib, f.rel, f.lines[i]), t.report;
      rep := rep.(lines := rep.lines + 1);
      match fate {
        case Invalid =>
          if strict {
            BadCounts(lib, f, i);
            CountGrows(lib, f, i + 1, Bad);
            return None;
          }
          rep := rep.(invalid := rep.invalid + 1, invalidRegex := rep.invalidRegex + if InvalidRegex(lib, f.rel, f.lines[i]) then 1 else 0);
          Recount(scope, t, rep, acc + AcceptedIn(lib, f, i), s.report, acc, AcceptedIn(lib, f, i));
          t := t.(report := rep);
        case Skipped =>
          rep := rep.(skipped := rep.skipped + 1);
          Recount(scope, t, rep, acc + AcceptedIn(lib, f, i), s.report, acc, AcceptedIn(lib, f, i));
          t := t.(report := rep);
        case Value(kind, value) =>
          ValueFacts(lib, f.rel, f.lines[i]);
          ghost var was := t.report;
          t := ImportValue(scope, t, f.category, kind, value, acc, AcceptedIn(lib, f, i));
          ValueCounted(scope, was, t.report, Accepted(f.category, kind, value), acc, AcceptedIn(lib, f, i));
          KindsMore(scope, s.report, was, t.report, acc, AcceptedIn(lib, f, i), Accepted(f.category, kind, value));
      }
      TalliedMore(lib, f, i, s.report, tally, t.report);
    }
    TalliedAll(lib, f, s.report, t.report);
    r := Some(t);
  }

  /** Since the report base, the lines before the n-th have been counted. */
  ghost predicate Tallied(lib: Lib, f: File, n: nat, base: Report, r: Report)
    requires n <= |f.lines|
  {
    forall k :: Shown(r, k) == Shown(base, k) + CountIn(lib, f, n, k)
  }

  lemma TalliedNone(lib: Lib, f: File, r: Report)
    ensures forall s :: s == r.(files := r.files + 1) ==> Tallied(lib, f, 0, r, s)
    ensures CountIn(lib, f, 0, Bad) == 0
  {
  }

  lemma TalliedAll(lib: Lib, f: File, base: Report, r: Report)
    requires Tallied(lib, f, |f.lines|, base, r)
    ensures forall k :: Shown(r, k) == Shown(base, k) + CountIn(lib, f, |f.lines|, k)
  {
  }

  lemma TalliedMore(lib: Lib, f: File, i: nat, base: Report, r: Report, s: Report)
    requires i < |f.lines| && Tallied(lib, f, i, base, r)
    requires match FateOf(lib, f.rel, f.lines[i])
             case Invalid =>
               && s.skipped == r.skipped && s.invalid == r.invalid + 1
               && s.invalidRegex == r.invalidRegex + if InvalidRegex(lib, f.rel, f.lines[i]) then 1 else 0
             case Skipped => s.skipped == r.skipped + 1 && s.invalid == r.invalid && s.invalidRegex == r.invalidRegex
             case Value(_, _) => s.skipped == r.skipped && s.invalid == r.invalid && s.invalidRegex == r.invalidRegex
    ensures Tallied(lib, f, i + 1, base, s)
    ensures CountIn(lib, f, i + 1, Bad) == CountIn(lib, f, i, Bad) + if FateOf(lib, f.rel, f.lines[i]).Invalid? then 1 else 0
  {
    hide FateOf, InvalidRegex;
  }

  lemma BadCounts(lib: Lib, f: File, i: nat)
    requires i < |f.lines| && FateOf(lib, f.rel, f.lines[i]).Invalid?
    ensures CountIn(lib, f, i + 1, Bad) > 0
  {
    hide FateOf;
  }

  lemma FilePlain(f: File)
    requires FileOK(f)
    ensures NUL !in f.category && '/' !in f.category
  {
  }

  lemma {:induction false} CountGrows(lib: Lib, f: File, n: nat, k: Kind)
    requires n <= |f.lines|
    ensures CountIn(lib, f, n, k) <= CountIn(lib, f, |f.lines|, k)
    decreases |f.lines| - n
  {
    hide IsKind;
    if n < |f.lines| {
      CountGrows(lib, f, n + 1, k);
    }
  }

  lemma ValueCounted(scope: Scope, r: Report, s: Report, a: Accepted, before: set<Accepted>, mine: set<Accepted>)
    requires s == if a in Known(scope, before, mine) then r.(lines := r.lines + 1, duplicates := r.duplicates + 1)
                  else CountValue(r, a.category, a.kind)
    ensures s.lines == r.lines + 1 && s.skipped == r.skipped && s.invalid == r.invalid && s.invalidRegex == r.invalidRegex
    ensures forall k :: Get(s.kinds, k) == Get(r.kinds, k) + if k == a.kind && a !in Known(scope, before, mine) then 1 else 0
  {
    hide Known;
  }

  lemma AcceptedMore(lib: Lib, f: File, i: nat)
    requires i < |f.lines|
    ensures var fate := FateOf(lib, f.rel, f.lines[i]);
            AcceptedIn(lib, f, i + 1) == AcceptedIn(lib, f, i) + if fate.Value? then {Accepted(f.category, fate.kind, fate.value)} else {}
  {
  }

  lemma NewFile(scope: Scope, s: Import, t: Import, acc: set<Accepted>, category: string)
    requires ImportOf(scope, s, acc) && t == s.(seenFile := {}, report := s.report.(files := s.report.files + 1))
    ensures ImportOf(scope, t, acc) && FileSeen(t.seenFile, {}, category) && KindsCounted(scope, s.report, t.report, acc, {})
  {
  }

  lemma Recount(scope: Scope, s: Import, rep: Report, acc: set<Accepted>, base: Report, before: set<Accepted>, mine: set<Accepted>)
    requires ImportOf(scope, s, acc) && KindsCounted(scope, base, s.report, before, mine)
    requires || rep == s.report.(lines := s.report.lines + 1, skipped := s.report.skipped + 1)
             || rep == s.report.(lines := s.report.lines + 1, invalid := s.report.invalid + 1)
             || rep == s.report.(lines := s.report.lines + 1, invalid := s.report.invalid + 1, invalidRegex := s.report.invalidRegex + 1)
    ensures ImportOf(scope, s.(report := rep), acc) && KindsCounted(scope, base, rep, before, mine)
  {
  }

  // ---------- The output files ----------

  datatype OutFile = OutFile(key: string, number: nat, values: seq<string>)

  function Concat(files: seq<OutFile>): seq<string> {
    if files == [] then [] else Concat(files[..|files| - 1]) + files[|files| - 1].values
  }

  /** The files of a group: none empty or too large, numbered from 1, as few as can be, and together the
      values in order. */
  ghost predicate CutInto(key: string, vals: seq<string>, max: nat, files: seq<OutFile>) {
    && Concat(files) == vals
    && (forall i :: 0 <= i < |files| ==> files[i].key == key && files[i].number == i + 1 && 0 < |files[i].values| <= max)
    && (vals == [] ==> files == [])
    && (vals != [] ==> files != [] && Times(|files| - 1, max) < |vals| <= Times(|files|, max))
  }

  method CutGroup(key: string, vals: seq<string>, max: nat) returns (files: seq<OutFile>)
    requires max > 0
    ensures CutInto(key, vals, max, files)
  {
    hide Times, Concat;
    files := [];
    ConcatNone();
    var i, start := 1, 0;
    TimesSteps(0, max);
    while start < |vals|
      invariant i == |files| + 1 && start == Times(|files|, max) && (vals == [] ==> files == [])
      invariant start < |vals| + max
      invariant Concat(files) == if start < |vals| then vals[..start] else vals
      invariant forall k :: 0 <= k < |files| ==> files[k].key == key && files[k].number == k + 1 && 0 < |files[k].values| <= max
      decreases |vals| + max - start
    {
      var end := start + max;
      if end > |vals| {
        end := |vals|;
      }
      var file := OutFile(key, i, vals[start..end]);
      ConcatSnoc(files, file);
      assert vals[..start] + vals[start..end] == vals[..end];
      assert vals[..|vals|] == vals;
      TimesSteps(|files|, max);
      files := files + [file];
      i, start := i + 1, start + max;
    }
    if vals != [] {
      TimesSteps(|files| - 1, max);
    }
  }

  lemma ConcatNone()
    ensures Concat([]) == []
  {
  }

  lemma ConcatSnoc(files: seq<OutFile>, file: OutFile)
    ensures Concat(files + [file]) == Concat(files) + file.values
  {
    assert (files + [file])[..|files|] == files;
  }

  function Times(n: nat, max: nat): nat {
    n * max
  }

  lemma TimesSteps(n: nat, max: nat)
    ensures Times(0, max) == 0 && Times(n + 1, max) == Times(n, max) + max
  {
  }

  function StrOrder(): (string, string) -> bool {
    (a: string, b: string) => StrLess(a, b)
  }

  lemma StrOrderOK()
    ensures StrictWeakOrder(StrOrder())
  {
    hide StrLess;
    StrLessIsStrictTotal();
  }

  /** Sorting keeps the values and their repetitions. */
  lemma SortedValues(vals: seq<string>)
    ensures var s := StableSort(StrOrder(), vals);
            && Sorted(StrOrder(), s) && multiset(s) == multiset(vals) && |s| == |vals|
            && (forall v :: v in s <==> v in vals) && (NoDuplicates(vals) ==> NoDuplicates(s))
  {
    hide StrictWeakOrder, StableSort;
    StrOrderOK();
    StableSortCorrect(StrOrder(), vals);
    var s := StableSort(StrOrder(), vals);
    forall v ensures v in s <==> v in vals {
      assert v in s <==> v in multiset(s);
      assert v in vals <==> v in multiset(vals);
    }
    if NoDuplicates(vals) {
      NoDuplicatesPermuted(vals, s);
    }
  }

  method KeysOf(g: Groups) returns (keys: seq<string>)
    ensures (forall k :: k in keys <==> k in g) && NoDuplicates(keys) && Sorted(StrOrder(), keys)
  {
    hide StrictWeakOrder, StableSort, Sorted;
    var todo := g.Keys;
    keys := [];
    while todo != {}
      invariant todo <= g.Keys && NoDuplicates(keys) && forall k :: k in keys <==> k in g.Keys - todo
      decreases todo
    {
      var k :| k in todo;
      assert forall i :: 0 <= i < |keys| ==> keys[i] in keys;
      keys := keys + [k];
      todo := todo - {k};
    }
    SortedValues(keys);
    keys := StableSort(StrOrder(), keys);
  }

  /** The last loop: each group sorted and cut, in the order of the keys. */
  method WriteGroups(g: Groups, max: nat) returns (keys: seq<string>, files: seq<seq<OutFile>>)
    requires max > 0
    ensures (forall k :: k in keys <==> k in g) && NoDuplicates(keys) && Sorted(StrOrder(), keys) && |files| == |keys|
    ensures forall i :: 0 <= i < |keys| ==> keys[i] in g && CutInto(keys[i], StableSort(StrOrder(), g[keys[i]]), max, files[i])
  {
    hide CutInto, StableSort, Sorted, NoDuplicates;
    keys := KeysOf(g);
    files := [];
    for i := 0 to |keys|
      invariant |files| == i
      invariant forall j :: 0 <= j < i ==> keys[j] in g && CutInto(keys[j], StableSort(StrOrder(), g[keys[j]]), max, files[j])
    {
      assert keys[i] in keys;
      var cut := CutGroup(keys[i], StableSort(StrOrder(), g[keys[i]]), max);
      files := files + [cut];
    }
  }

  // ---------- The import ----------

  function LineCount(fs: seq<File>): nat {
    if fs == [] then 0 else LineCount(fs[..|fs| - 1]) + |fs[|fs| - 1].lines|
  }

  function CountAll(lib: Lib, fs: seq<File>, k: Kind): nat {
    if fs == [] then 0 else CountAll(lib, fs[..|fs| - 1], k) + CountIn(lib, fs[|fs| - 1], |fs[|fs| - 1].lines|, k)
  }

  /** How many values of a type are imported: the different ones of the batch, or those of each file. */
  ghost function KindTotal(lib: Lib, scope: Scope, fs: seq<File>, kind: string): nat {
    if scope == Batch then |OfKind(AcceptedBy(lib, fs), kind)|
    else if fs == [] then 0
    else KindTotal(lib, scope, fs[..|fs| - 1], kind) + |OfKind(AcceptedIn(lib, fs[|fs| - 1], |fs[|fs| - 1].lines|), kind)|
  }

  /** The report's numbers are those of the files. */
  ghost predicate ReportOf(lib: Lib, scope: Scope, fs: seq<File>, r: Report) {
    && r.lines == LineCount(fs)
    && (forall k :: Shown(r, k) == CountAll(lib, fs, k))
    && (forall kind :: Get(r.kinds, kind) == KindTotal(lib, scope, fs, kind))
  }

  lemma ReportMore(lib: Lib, scope: Scope, fs: seq<File>, f: File, r: Report, s: Report)
    requires ReportOf(lib, scope, fs, r) && s.lines == r.lines + |f.lines|
    requires KindsCounted(scope, r, s, AcceptedBy(lib, fs), AcceptedIn(lib, f, |f.lines|))
    requires forall k :: Shown(s, k) == Shown(r, k) + CountIn(lib, f, |f.lines|, k)
    ensures ReportOf(lib, scope, fs + [f], s)
  {
    hide Shown, CountIn, OfKind, AcceptedIn, Get;
    var more := fs + [f];
    assert more[..|more| - 1] == fs;
    var acc, mine := AcceptedBy(lib, fs), AcceptedIn(lib, f, |f.lines|);
    assert AcceptedBy(lib, more) == acc + mine;
    assert acc + {} == acc;
    forall kind ensures Get(s.kinds, kind) == KindTotal(lib, scope, more, kind) {
      assert Get(r.kinds, kind) == KindTotal(lib, scope, fs, kind);
      NoneOfKind(kind);
    }
  }

  lemma NoneOfKind(kind: string)
    ensures |OfKind({}, kind)| == 0
  {
  }

  method ImportFiles(lib: Lib, scope: Scope, strict: bool, fs: seq<File>) returns (r: Option<Import>)
    requires LibOK(lib) && forall i :: 0 <= i < |fs| ==> FileOK(fs[i])
    ensures r == None <==> strict && CountAll(lib, fs, Bad) > 0
    ensures r.Some? ==> ImportOf(scope, r.value, AcceptedBy(lib, fs)) && ReportOf(lib, scope, fs, r.value.report)
  {
    hide ImportOf, AcceptedIn, ReportOf, KindsCounted, Shown, CountIn, LibOK, FileOK;
    var s := Import(Report(0, 0, 0, 0, 0, 0, map[], map[], 0, 0, 0), map[], {}, {});
    NothingImported(lib, scope, s);
    for i := 0 to |fs|
      invariant ImportOf(scope, s, AcceptedBy(lib, fs[..i])) && ReportOf(lib, scope, fs[..i], s.report)
      invariant strict ==> CountAll(lib, fs[..i], Bad) == 0
    {
      assert fs[..i + 1][..i] == fs[..i];
      assert fs[..i + 1] == fs[..i] + [fs[i]];
      var next := ImportFile(lib, scope, strict, fs[i], s, AcceptedBy(lib, fs[..i]));
      if next == None {
        CountAllGrows(lib, fs, i + 1, Bad);
        return None;
      }
      ReportMore(lib, scope, fs[..i], fs[i], s.report, next.value.report);
      s := next.value;
    }
    assert fs[..|fs|] == fs;
    r := Some(s);
  }

  lemma {:induction false} CountAllGrows(lib: Lib, fs: seq<File>, n: nat, k: Kind)
    requires n <= |fs|
    ensures CountAll(lib, fs[..n], k) <= CountAll(lib, fs, k)
    decreases |fs| - n
  {
    hide CountIn;
    if n < |fs| {
      assert fs[..n + 1][..n] == fs[..n];
      CountAllGrows(lib, fs, n + 1, k);
    } else {
      assert fs[..n] == fs;
    }
  }

  lemma NothingImported(lib: Lib, scope: Scope, s: Import)
    requires s == Import(Report(0, 0, 0, 0, 0, 0, map[], map[], 0, 0, 0), map[], {}, {})
    ensures ImportOf(scope, s, {}) && ReportOf(lib, scope, [], s.report)
  {
    assert OfKind({}, "") == {};
  }

  /** What one group's files hold: the accepted values of its category and type, sorted; each once, if
      duplicates are removed over the whole batch. */
  ghost predicate Exported(lib: Lib, scope: Scope, fs: seq<File>, key: string, files: seq<OutFile>) {
    var vals := Concat(files);
    && Sorted(StrOrder(), vals)
    && (forall v :: v in vals <==> Backed(AcceptedBy(lib, fs), key, v))
    && (scope == Batch ==> NoDuplicates(vals))
  }

  lemma GroupExported(lib: Lib, scope: Scope, fs: seq<File>, s: Import, key: string, max: nat, files: seq<OutFile>)
    requires ImportOf(scope, s, AcceptedBy(lib, fs)) && key in s.groups
    requires CutInto(key, StableSort(StrOrder(), s.groups[key]), max, files)
    ensures Exported(lib, scope, fs, key, files)
  {
    hide AcceptedBy, Conserved, BatchSeen, StableSort, Sorted, NoDuplicates;
    SortedValues(s.groups[key]);
    forall v ensures v in s.groups[key] <==> Backed(AcceptedBy(lib, fs), key, v) {
      if v in s.groups[key] {
        var i :| 0 <= i < |s.groups[key]| && s.groups[key][i] == v;
      }
    }
  }

  /** RunValidated. A strict import fails exactly if there is an invalid line. The report's numbers are
      those of the files, and account for every line read; every accepted value is in the files of its group,
      and nothing else is; no file is empty or too large. */
  method RunValidated(lib: Lib, scope: Scope, strict: bool, max: nat, fs: seq<File>)
    returns (r: Option<Report>, keys: seq<string>, files: seq<seq<OutFile>>)
    requires LibOK(lib) && max > 0 && forall i :: 0 <= i < |fs| ==> FileOK(fs[i])
    ensures r == None <==> strict && CountAll(lib, fs, Bad) > 0
    ensures r.Some? ==> Conserved(r.value) && ReportOf(lib, scope, fs, r.value)
    ensures r.Some? ==> |files| == |keys| && NoDuplicates(keys) && Sorted(StrOrder(), keys)
    ensures r.Some? ==> forall i :: 0 <= i < |keys| ==>
                                      Exported(lib, scope, fs, keys[i], files[i]) && CutInto(keys[i], Concat(files[i]), max, files[i])
    ensures r.Some? ==> forall a :: a in AcceptedBy(lib, fs) ==> GroupKey(a.category, a.kind) in keys
    ensures r.Some? ==> LinesExported(lib, fs, keys, files) && LinesCounted(lib, fs, r.value)
    ensures r == None <==> strict && Lines(lib, fs, Bad) != {}
  {
    hide LinesExported, LinesCounted, Lines, ImportOf, CutInto, Exported, AcceptedBy, NoDuplicates, Sorted, Conserved, Concat, ReportOf, CountAll;
    keys, files := [], [];
    CountAllIs(lib, fs, Bad);
    var s := ImportFiles(lib, scope, strict, fs);
    if s == None {
      return None, keys, files;
    }
    keys, files := WriteGroups(s.value.groups, max);
    forall i | 0 <= i < |keys| ensures Exported(lib, scope, fs, keys[i], files[i]) && CutInto(keys[i], Concat(files[i]), max, files[i]) {
      GroupExported(lib, scope, fs, s.value, keys[i], max, files[i]);
      CutIsConcat(keys[i], StableSort(StrOrder(), s.value.groups[keys[i]]), max, files[i]);
    }
    ImportFacts(scope, s.value, AcceptedBy(lib, fs));
    AllExported(lib, scope, fs, keys, files);
    ReportCounts(lib, scope, fs, s.value.report);
    r := Some(s.value.report);
  }

  // ---------- How many lines there are of a kind ----------

  ghost function LinesIn(lib: Lib, f: File, n: nat, k: Kind): set<int>
    requires n <= |f.lines|
  {
    set i | 0 <= i < n && Reads(lib, f.rel, f.lines[i], k)
  }

  ghost function Lines(lib: Lib, fs: seq<File>, k: Kind): set<(int, int)> {
    set i, n | 0 <= i < |fs| && 0 <= n < |fs[i].lines| && Reads(lib, fs[i].rel, fs[i].lines[n], k) :: (i, n)
  }

  lemma {:induction false} CountInIs(lib: Lib, f: File, n: nat, k: Kind)
    requires n <= |f.lines|
    ensures CountIn(lib, f, n, k) == |LinesIn(lib, f, n, k)|
  {
    hide IsKind, Reads, LinesIn;
    LinesInMore(lib, f, n, k);
    if n > 0 {
      CountInIs(lib, f, n - 1, k);
      KindIs(lib, f.rel, f.lines[n - 1], k);
    }
  }

  lemma KindIs(lib: Lib, rel: string, raw: string, k: Kind)
    ensures IsKind(lib, rel, raw, k) <==> Reads(lib, rel, raw, k)
  {
    hide IsKind, Reads;
    LineFate(lib, rel, raw);
  }

  lemma LinesInMore(lib: Lib, f: File, n: nat, k: Kind)
    requires n <= |f.lines|
    ensures if n == 0 then LinesIn(lib, f, n, k) == {}
            else
              && LinesIn(lib, f, n, k) == LinesIn(lib, f, n - 1, k) + (if Reads(lib, f.rel, f.lines[n - 1], k) then {n - 1} else {})
              && n - 1 !in LinesIn(lib, f, n - 1, k)
  {
    hide Reads;
  }

  ghost function Row(m: int, s: set<int>): set<(int, int)> {
    set n | n in s :: (m, n)
  }

  lemma {:induction false} RowSize(lib: Lib, f: File, n: nat, k: Kind, m: int)
    requires n <= |f.lines|
    ensures |Row(m, LinesIn(lib, f, n, k))| == |LinesIn(lib, f, n, k)|
  {
    hide LinesIn, Reads;
    LinesInMore(lib, f, n, k);
    if n == 0 {
      assert Row(m, {}) == {};
    } else {
      RowSize(lib, f, n - 1, k, m);
      RowMore(m, LinesIn(lib, f, n - 1, k), n - 1);
    }
  }

  lemma RowMore(m: int, s: set<int>, n: int)
    requires n !in s
    ensures Row(m, s + {n}) == Row(m, s) + {(m, n)} && (m, n) !in Row(m, s) && Row(m, s + {}) == Row(m, s)
  {
  }

  /** The report's numbers are numbers of lines. */
  lemma {:induction false} CountAllIs(lib: Lib, fs: seq<File>, k: Kind)
    ensures CountAll(lib, fs, k) == |Lines(lib, fs, k)|
  {
    hide Reads, CountIn;
    if fs != [] {
      var m := |fs| - 1;
      var f := fs[m];
      CountAllIs(lib, fs[..m], k);
      CountInIs(lib, f, |f.lines|, k);
      RowSize(lib, f, |f.lines|, k, m);
      LinesLast(lib, fs, k);
    }
  }

  lemma LinesLast(lib: Lib, fs: seq<File>, k: Kind)
    requires fs != []
    ensures var m := |fs| - 1; var row := Row(m, LinesIn(lib, fs[m], |fs[m].lines|, k));
            Lines(lib, fs, k) == Lines(lib, fs[..m], k) + row && Lines(lib, fs[..m], k) !! row
  {
    hide Reads;
    var m := |fs| - 1;
    var init := fs[..m];
    forall x ensures x in Lines(lib, fs, k) <==> x in Lines(lib, init, k) || x in Row(m, LinesIn(lib, fs[m], |fs[m].lines|, k)) {
      var (i, n) := x;
      assert 0 <= i < m ==> init[i] == fs[i];
    }
  }

  /** Skipped, invalid and uncompilable lines, and all lines together. */
  ghost predicate LinesCounted(lib: Lib, fs: seq<File>, r: Report) {
    && r.skipped == |Lines(lib, fs, Blank)| && r.invalid == |Lines(lib, fs, Bad)| && r.invalidRegex == |Lines(lib, fs, BadRegex)|
    && r.lines == LineCount(fs)
  }

  lemma ReportCounts(lib: Lib, scope: Scope, fs: seq<File>, r: Report)
    requires ReportOf(lib, scope, fs, r)
    ensures LinesCounted(lib, fs, r)
  {
    hide CountAll, Lines, KindTotal;
    forall k ensures Shown(r, k) == |Lines(lib, fs, k)| {
      CountAllIs(lib, fs, k);
    }
    assert Shown(r, Blank) == r.skipped && Shown(r, Bad) == r.invalid && Shown(r, BadRegex) == r.invalidRegex;
  }

  /** The value of a line, in the file. */
  ghost predicate HoldsAt(lib: Lib, fs: seq<File>, i: nat, n: nat, key: string, value: string) {
    && i < |fs| && n < |fs[i].lines|
    && exists kind :: key == fs[i].category + "/" + kind && Holds(lib, fs[i].rel, fs[i].lines[n], kind, value)
  }

  lemma {:induction false} AcceptedIff(lib: Lib, fs: seq<File>, key: string, value: string)
    ensures Backed(AcceptedBy(lib, fs), key, value) <==> exists i: nat, n: nat :: HoldsAt(lib, fs, i, n, key, value)
  {
    hide FateOf, Holds, GroupKey;
    if fs != [] {
      var m := |fs| - 1;
      var init, f := fs[..m], fs[m];
      AcceptedIff(lib, init, key, value);
      forall i: nat, n: nat | i < m ensures HoldsAt(lib, fs, i, n, key, value) <==> HoldsAt(lib, init, i, n, key, value) {
        assert fs[i] == init[i];
      }
      BackedUnion(AcceptedBy(lib, init), AcceptedIn(lib, f, |f.lines|), key, value);
      BackedInFile(lib, fs, m, key, value);
    }
  }

  lemma BackedUnion(a: set<Accepted>, b: set<Accepted>, key: string, value: string)
    ensures Backed(a + b, key, value) <==> Backed(a, key, value) || Backed(b, key, value)
  {
    hide GroupKey;
    if x :| x in a && GroupKey(x.category, x.kind) == key && x.value == value { assert x in a + b; }
    if x :| x in b && GroupKey(x.category, x.kind) == key && x.value == value { assert x in a + b; }
  }

  lemma BackedInFile(lib: Lib, fs: seq<File>, m: nat, key: string, value: string)
    requires m < |fs|
    ensures Backed(AcceptedIn(lib, fs[m], |fs[m].lines|), key, value) <==> exists n: nat :: HoldsAt(lib, fs, m, n, key, value)
  {
    hide FateOf, Holds;
    var f := fs[m];
    if a :| a in AcceptedIn(lib, f, |f.lines|) && GroupKey(a.category, a.kind) == key && a.value == value {
      var n: int :| 0 <= n < |f.lines| && FateOf(lib, f.rel, f.lines[n]).Value?
                    && Accepted(f.category, FateOf(lib, f.rel, f.lines[n]).kind, FateOf(lib, f.rel, f.lines[n]).value) == a;
      assert FateOf(lib, f.rel, f.lines[n]) == Value(a.kind, value);
      LineFate(lib, f.rel, f.lines[n]);
      assert HoldsAt(lib, fs, m, n, key, value);
    }
    if n: nat :| HoldsAt(lib, fs, m, n, key, value) {
      var kind :| key == f.category + "/" + kind && Holds(lib, f.rel, f.lines[n], kind, value);
      LineFate(lib, f.rel, f.lines[n]);
      assert Accepted(f.category, kind, value) in AcceptedIn(lib, f, |f.lines|);
    }
  }

  /** Every value of a line is in the files of its category and type, and nothing else is in any file. */
  ghost predicate LinesExported(lib: Lib, fs: seq<File>, keys: seq<string>, files: seq<seq<OutFile>>)
    requires |files| == |keys|
  {
    && (forall i: nat, n: nat, key, value :: HoldsAt(lib, fs, i, n, key, value) ==>
                                               exists g :: 0 <= g < |keys| && keys[g] == key && value in Concat(files[g]))
    && (forall g, value :: 0 <= g < |keys| && value in Concat(files[g]) ==>
                             exists i: nat, n: nat :: HoldsAt(lib, fs, i, n, keys[g], value))
  }

  lemma AllExported(lib: Lib, scope: Scope, fs: seq<File>, keys: seq<string>, files: seq<seq<OutFile>>)
    requires |files| == |keys| && forall i :: 0 <= i < |keys| ==> Exported(lib, scope, fs, keys[i], files[i])
    requires forall a :: a in AcceptedBy(lib, fs) ==> GroupKey(a.category, a.kind) in keys
    ensures LinesExported(lib, fs, keys, files)
  {
    hide AcceptedBy, Concat, HoldsAt, Sorted, NoDuplicates, GroupKey;
    forall i: nat, n: nat, key, value | HoldsAt(lib, fs, i, n, key, value)
      ensures exists g :: 0 <= g < |keys| && keys[g] == key && value in Concat(files[g])
    {
      AcceptedIff(lib, fs, key, value);
      var a :| a in AcceptedBy(lib, fs) && GroupKey(a.category, a.kind) == key && a.value == value;
      var g :| 0 <= g < |keys| && keys[g] == key;
    }
    forall g, value | 0 <= g < |keys| && value in Concat(files[g])
      ensures exists i: nat, n: nat :: HoldsAt(lib, fs, i, n, keys[g], value)
    {
      AcceptedIff(lib, fs, keys[g], value);
    }
  }

  lemma CutIsConcat(key: string, vals: seq<string>, max: nat, files: seq<OutFile>)
    requires CutInto(key, vals, max, files)
    ensures vals == Concat(files)
  {
  }

  lemma ImportFacts(scope: Scope, s: Import, acc: set<Accepted>)
    requires ImportOf(scope, s, acc)
    ensures Conserved(s.report) && forall a :: a in acc ==> GroupKey(a.category, a.kind) in s.groups
  {
  }
}
