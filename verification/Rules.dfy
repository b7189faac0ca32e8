/** A rule, and NormalizeAndValidate, which every rule passes through whenever it is read or written. */
module Rules {
  import opened Text
  import opened Wrappers

  /** rest stands for the fields that are neither read nor written here. */
  datatype VariantConfig = VariantConfig(
    pinyin: Option<bool>, pinyinInitials: Option<bool>, homophone: Option<bool>, minScore: real,
    action: string, riskLevel: string, minLength: int, initialMinLength: int,
    maxPinyinVariants: int, maxHomophoneVariants: int, categoryConstraints: seq<string>, rest: string)

  datatype Rule = Rule(
    id: string, state: string, kind: string, category: string, riskLevel: string, action: string, score: int,
    source: string, keywords: seq<string>, patterns: seq<string>, domains: seq<string>,
    mapping: map<string, seq<string>>, variant: VariantConfig, path: string, rest: string)

  datatype RuleError =
    | IDRequired | TypeRequired | CategoryRequired | BadVariant | NoKeywords | NoPatterns | BadRegex
    | NoDomains | NoMapping | UnknownType

  /** The library functions: character tables, and whether a regular expression compiles. */
  datatype Env = Env(u: Unicode, compiles: string -> bool)

  // ---------- clean ----------

  /** The trimmed, non-empty strings among the first n, each at its first occurrence. */
  function CleanPrefix(u: Unicode, s: seq<string>, n: nat): seq<string>
    requires n <= |s|
  {
    if n == 0 then []
    else
      var c, v := CleanPrefix(u, s, n - 1), Trim(u, s[n - 1]);
      if v != "" && v !in c then c + [v] else c
  }

  function Clean(u: Unicode, s: seq<string>): seq<string> {
    CleanPrefix(u, s, |s|)
  }

  method CleanList(u: Unicode, s: seq<string>) returns (out: seq<string>)
    ensures out == Clean(u, s)
  {
    out := [];
    var seen: set<string> := {};
    for i := 0 to |s|
      invariant out == CleanPrefix(u, s, i) && seen == set v | v in out
    {
      var v := Trim(u, s[i]);
      if v != "" && v !in seen {
        seen := seen + {v};
        out := out + [v];
      }
    }
  }

  ghost predicate CleanAlready(u: Unicode, s: seq<string>) {
    && (forall i :: 0 <= i < |s| ==> s[i] != "" && Trimmed(u, s[i]))
    && (forall i, j :: 0 <= i < j < |s| ==> s[i] != s[j])
  }

  lemma {:induction false} CleanPrefixResult(u: Unicode, s: seq<string>, n: nat)
    requires n <= |s|
    ensures CleanAlready(u, CleanPrefix(u, s, n))
    ensures forall v :: v in CleanPrefix(u, s, n) <==> v != "" && exists i :: 0 <= i < n && Trim(u, s[i]) == v
  {
    hide Trim, Trimmed;
    if n > 0 {
      CleanPrefixResult(u, s, n - 1);
      TrimResult(u, s[n - 1]);
    }
  }

  lemma {:induction false} CleanPrefixFixed(u: Unicode, s: seq<string>, n: nat)
    requires n <= |s| && CleanAlready(u, s)
    ensures CleanPrefix(u, s, n) == s[..n]
  {
    hide Trim, Trimmed;
    if n > 0 {
      CleanPrefixFixed(u, s, n - 1);
      TrimResult(u, s[n - 1]);
      assert s[..n] == s[..n - 1] + [s[n - 1]];
      assert s[n - 1] !in s[..n - 1];
    }
  }

  /** Cleaning keeps exactly the trimmed non-empty values, each once; cleaning again changes nothing. */
  lemma CleanIdempotent(u: Unicode, s: seq<string>)
    ensures Clean(u, Clean(u, s)) == Clean(u, s)
    ensures forall v :: v in Clean(u, s) <==> v != "" && exists i :: 0 <= i < |s| && Trim(u, s[i]) == v
  {
    CleanPrefixResult(u, s, |s|);
    var c := Clean(u, s);
    CleanPrefixFixed(u, c, |c|);
    assert c[..|c|] == c;
  }

  // ---------- NormalizeAndValidate ----------

  function DefaultScore(level: string): int {
    match level
    case "high" => 90
    case "low" => 30
    case _ => 60
  }

  predicate IsTrue(b: Option<bool>) {
    b == Some(true)
  }

  predicate ValidAction(a: string) {
    a in ["block", "review", "warn", "allow_with_flag", "pass"]
  }

  predicate ValidRisk(r: string) {
    r in ["low", "medium", "high", "critical"]
  }

  predicate VariantOK(v: VariantConfig) {
    && 0.0 <= v.minScore <= 1.0
    && v.minLength >= 0 && v.initialMinLength >= 0
    && 0 <= v.maxPinyinVariants <= 64 && 0 <= v.maxHomophoneVariants <= 128
    && (v.action != "" ==> ValidAction(v.action))
    && (v.riskLevel != "" ==> ValidRisk(v.riskLevel))
  }

  function VariantDefaults(v: VariantConfig): VariantConfig {
    v.(maxPinyinVariants := if (IsTrue(v.pinyin) || IsTrue(v.pinyinInitials)) && v.maxPinyinVariants == 0 then 8
                            else v.maxPinyinVariants,
       maxHomophoneVariants := if IsTrue(v.homophone) && v.maxHomophoneVariants == 0 then 16
                               else v.maxHomophoneVariants)
  }

  /** Whether some key has a value: mappingCount(m) != 0. */
  predicate HasMapping(m: map<string, seq<string>>) {
    exists k :: k in m && m[k] != []
  }

  function CheckKind(env: Env, r: Rule): Option<RuleError> {
    match r.kind
    case "keyword" => if r.keywords == [] then Some(NoKeywords) else None
    case "regex" =>
      if r.patterns == [] then Some(NoPatterns)
      else if exists p :: p in r.patterns && !env.compiles(p) then Some(BadRegex) else None
    case "domain" => if r.domains == [] then Some(NoDomains) else None
    case "pinyin" => if HasMapping(r.mapping) then None else Some(NoMapping)
    case "homophone" => if HasMapping(r.mapping) then None else Some(NoMapping)
    case _ => Some(UnknownType)
  }

  /** Lower-cased and trimmed names. */
  function Named(env: Env, r: Rule): Rule {
    r.(kind := LowerTrim(env.u, r.kind), riskLevel := LowerTrim(env.u, r.riskLevel), action := LowerTrim(env.u, r.action),
       variant := r.variant.(action := LowerTrim(env.u, r.variant.action), riskLevel := LowerTrim(env.u, r.variant.riskLevel)))
  }

  function Defaulted(r: Rule): Rule {
    var level := if r.riskLevel == "" then "medium" else r.riskLevel;
    r.(action := if r.action == "" then "review" else r.action,
       riskLevel := level,
       score := if r.score == 0 then DefaultScore(level) else r.score,
       source := if r.source == "" then "local" else r.source)
  }

  function Cleaned(env: Env, r: Rule): Rule {
    r.(keywords := Clean(env.u, r.keywords), patterns := Clean(env.u, r.patterns), domains := Clean(env.u, r.domains),
       variant := r.variant.(categoryConstraints := Clean(env.u, r.variant.categoryConstraints)))
  }

  function Normalize(env: Env, r: Rule): Result<Rule, RuleError> {
    var n := Named(env, r);
    if n.id == "" then Err(IDRequired)
    else if n.kind == "" then Err(TypeRequired)
    else if n.category == "" then Err(CategoryRequired)
    else
      var c := Cleaned(env, Defaulted(n));
      if !VariantOK(c.variant) then Err(BadVariant)
      else
        var d := c.(variant := VariantDefaults(c.variant));
        match CheckKind(env, d)
        case Some(e) => Err(e)
        case None => Ok(d)
  }

  /** A rule that the code rewrites through a pointer. */
  class RuleRef {
    var rule: Rule

    constructor (r: Rule)
      ensures rule == r
    {
      rule := r;
    }

    method SetNames(env: Env)
      modifies this
      ensures rule == Named(env, old(rule))
    {
      rule := rule.(kind := LowerTrim(env.u, rule.kind));
      rule := rule.(riskLevel := LowerTrim(env.u, rule.riskLevel));
      rule := rule.(action := LowerTrim(env.u, rule.action));
      rule := rule.(variant := rule.variant.(action := LowerTrim(env.u, rule.variant.action)));
      rule := rule.(variant := rule.variant.(riskLevel := LowerTrim(env.u, rule.variant.riskLevel)));
    }

    method SetDefaults()
      modifies this
      ensures rule == Defaulted(old(rule))
    {
      if rule.action == "" { rule := rule.(action := "review"); }
      if rule.riskLevel == "" { rule := rule.(riskLevel := "medium"); }
      if rule.score == 0 { rule := rule.(score := DefaultScore(rule.riskLevel)); }
      if rule.source == "" { rule := rule.(source := "local"); }
    }

    method CleanFields(env: Env)
      modifies this
      ensures rule == Cleaned(env, old(rule))
    {
      var c := CleanList(env.u, rule.keywords);
      rule := rule.(keywords := c);
      c := CleanList(env.u, rule.patterns);
      rule := rule.(patterns := c);
      c := CleanList(env.u, rule.domains);
      rule := rule.(domains := c);
      c := CleanList(env.u, rule.variant.categoryConstraints);
      rule := rule.(variant := rule.variant.(categoryConstraints := c));
    }

    method NormalizeAndValidate(env: Env) returns (err: Option<RuleError>)
      modifies this
      ensures match Normalize(env, old(rule))
              case Ok(n) => err == None && rule == n
              case Err(e) => err == Some(e)
    {
      hide Named, Defaulted, Cleaned;
      SetNames(env);
      if rule.id == "" { return Some(IDRequired); }
      if rule.kind == "" { return Some(TypeRequired); }
      if rule.category == "" { return Some(CategoryRequired); }
      SetDefaults();
      CleanFields(env);
      if !VariantOK(rule.variant) { return Some(BadVariant); }
      rule := rule.(variant := VariantDefaults(rule.variant));
      err := CheckKind(env, rule);
    }
  }

  lemma NamedIdempotent(env: Env, r: Rule)
    requires LikeGo(env.u)
    ensures Named(env, Named(env, r)) == Named(env, r)
  {
    hide LowerTrim;
    LowerTrimIdempotent(env.u, r.kind);
    LowerTrimIdempotent(env.u, r.riskLevel);
    LowerTrimIdempotent(env.u, r.action);
    LowerTrimIdempotent(env.u, r.variant.action);
    LowerTrimIdempotent(env.u, r.variant.riskLevel);
  }

  /** Library tables under which the code's own default names count as normal. */
  ghost predicate EnvOK(env: Env) {
    && LikeGo(env.u)
    && LowerTrim(env.u, "review") == "review" && LowerTrim(env.u, "medium") == "medium"
  }

  /** There is such a library: the ASCII tables, with any choice of what compiles. */
  lemma AsciiEnvOK(compiles: string -> bool)
    ensures EnvOK(Env(Ascii(), compiles))
  {
    var u := Ascii();
    AsciiIsLikeGo();
    TrimResult(u, "review");
    TrimResult(u, "medium");
    assert Lower(u, "review") == "review" && Lower(u, "medium") == "medium";
  }

  lemma CleanedIdempotent(env: Env, r: Rule)
    ensures Cleaned(env, Cleaned(env, r)) == Cleaned(env, r)
  {
    hide Clean;
    CleanIdempotent(env.u, r.keywords);
    CleanIdempotent(env.u, r.patterns);
    CleanIdempotent(env.u, r.domains);
    CleanIdempotent(env.u, r.variant.categoryConstraints);
  }

  /** A normalised rule is valid, and normalising it again changes nothing; the ID, the state and the
      path are never touched. */
  lemma NormalizeIdempotent(env: Env, r: Rule)
    requires EnvOK(env) && Normalize(env, r).Ok?
    ensures var n := Normalize(env, r).value;
            Normalize(env, n) == Ok(n) && n.id == r.id && n.state == r.state && n.path == r.path
  {
    hide LowerTrim, Clean;
    var a := Named(env, r);
    var b := Defaulted(a);
    var c := Cleaned(env, b);
    var d := c.(variant := VariantDefaults(c.variant));
    NamedIdempotent(env, r);
    CleanedIdempotent(env, b);
    assert Named(env, d) == d;
    assert Defaulted(d) == d;
    assert Cleaned(env, d) == d;
  }

  /** What a normal form is: names lower-cased and trimmed, defaults for what is missing, lists without
      blanks and repetitions, and a value for its type. */
  lemma NormalizeIs(env: Env, r: Rule)
    requires Normalize(env, r).Ok?
    ensures var n := Normalize(env, r).value;
            && n.id != "" && n.category == r.category != ""
            && n.kind == LowerTrim(env.u, r.kind) && n.kind in ["keyword", "regex", "domain", "pinyin", "homophone"]
            && n.action == (if LowerTrim(env.u, r.action) == "" then "review" else LowerTrim(env.u, r.action))
            && n.riskLevel == (if LowerTrim(env.u, r.riskLevel) == "" then "medium" else LowerTrim(env.u, r.riskLevel))
            && (r.score != 0 ==> n.score == r.score)
            && (r.score == 0 ==> n.score == if n.riskLevel == "high" then 90 else if n.riskLevel == "low" then 30 else 60)
            && n.source == (if r.source == "" then "local" else r.source)
            && n.mapping == r.mapping
    ensures var n := Normalize(env, r).value;
            && (n.kind == "keyword" ==> n.keywords != []) && (n.kind == "domain" ==> n.domains != [])
            && (n.kind == "regex" ==> n.patterns != [] && forall p :: p in n.patterns ==> env.compiles(p))
            && (n.kind in ["pinyin", "homophone"] ==> exists k :: k in n.mapping && n.mapping[k] != [])
    ensures var n := Normalize(env, r).value;
            && n.keywords == Clean(env.u, r.keywords) && n.patterns == Clean(env.u, r.patterns) && n.domains == Clean(env.u, r.domains)
  {
    hide LowerTrim, Clean, VariantOK, VariantDefaults;
  }

  /** The variant settings of a normal form: in range, and with limits where matching is on. */
  lemma NormalVariantIs(env: Env, r: Rule)
    requires Normalize(env, r).Ok?
    ensures var v := Normalize(env, r).value.variant;
            && 0.0 <= v.minScore <= 1.0 && 0 <= v.minLength && 0 <= v.initialMinLength
            && 0 <= v.maxPinyinVariants <= 64 && 0 <= v.maxHomophoneVariants <= 128
            && v.action in ["", "block", "review", "warn", "allow_with_flag", "pass"]
            && v.riskLevel in ["", "low", "medium", "high", "critical"]
            && (r.variant.maxPinyinVariants != 0 ==> v.maxPinyinVariants == r.variant.maxPinyinVariants)
            && (r.variant.maxHomophoneVariants != 0 ==> v.maxHomophoneVariants == r.variant.maxHomophoneVariants)
            && (r.variant.maxPinyinVariants == 0 ==>
                  v.maxPinyinVariants == if v.pinyin == Some(true) || v.pinyinInitials == Some(true) then 8 else 0)
            && (r.variant.maxHomophoneVariants == 0 ==> v.maxHomophoneVariants == if v.homophone == Some(true) then 16 else 0)
  {
    hide LowerTrim, Clean, CheckKind;
  }

  /** What is refused. */
  lemma RefusedIs(env: Env, r: Rule)
    ensures Normalize(env, r) == Err(IDRequired) <==> r.id == ""
    ensures Normalize(env, r) == Err(TypeRequired) <==> r.id != "" && LowerTrim(env.u, r.kind) == ""
    ensures Normalize(env, r) == Err(CategoryRequired) <==> r.id != "" && LowerTrim(env.u, r.kind) != "" && r.category == ""
  {
    hide LowerTrim, Clean, VariantOK, VariantDefaults, Defaulted;
  }

  /** Exactly these rules are accepted. */
  lemma AcceptedIff(env: Env, r: Rule)
    ensures Normalize(env, r).Ok? <==>
            && r.id != "" && r.category != "" && VariantInRange(env, r.variant)
            && match LowerTrim(env.u, r.kind)
               case "keyword" => Clean(env.u, r.keywords) != []
               case "regex" => Clean(env.u, r.patterns) != [] && forall p :: p in Clean(env.u, r.patterns) ==> env.compiles(p)
               case "domain" => Clean(env.u, r.domains) != []
               case "pinyin" => exists k :: k in r.mapping && r.mapping[k] != []
               case "homophone" => exists k :: k in r.mapping && r.mapping[k] != []
               case _ => false
    ensures Normalize(env, r) == Err(BadVariant) <==>
            r.id != "" && r.category != "" && LowerTrim(env.u, r.kind) != "" && !VariantInRange(env, r.variant)
  {
    hide LowerTrim, Clean, VariantInRange, VariantOK;
    VariantOKIff(env, r);
  }

  ghost predicate VariantInRange(env: Env, v: VariantConfig) {
    && 0.0 <= v.minScore <= 1.0 && 0 <= v.minLength && 0 <= v.initialMinLength
    && 0 <= v.maxPinyinVariants <= 64 && 0 <= v.maxHomophoneVariants <= 128
    && LowerTrim(env.u, v.action) in ["", "block", "review", "warn", "allow_with_flag", "pass"]
    && LowerTrim(env.u, v.riskLevel) in ["", "low", "medium", "high", "critical"]
  }

  lemma VariantOKIff(env: Env, r: Rule)
    ensures VariantOK(Cleaned(env, Defaulted(Named(env, r))).variant) <==> VariantInRange(env, r.variant)
  {
    hide LowerTrim, Clean;
  }

  /** The state and the path do not influence normalisation. */
  lemma NormalizeIgnoresState(env: Env, r: Rule, state: string, path: string)
    ensures var s := r.(state := state, path := path);
            match Normalize(env, r)
            case Ok(n) => Normalize(env, s) == Ok(n.(state := state, path := path))
            case Err(e) => Normalize(env, s) == Err(e)
  {
    hide LowerTrim, Clean;
  }
}
