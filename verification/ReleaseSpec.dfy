/** Trees of rule files, and what publishing and rolling back mean for them. */
module ReleaseSpec {
  import opened Wrappers
  import opened Rules

  type Path = string

  /** The YAML files of a directory: what each of them holds. A file never records its own path. */
  type Tree = map<Path, Rule>

  const PUBLISHED: string := "published"
  const STAGED: string := "staged"

  // ---------- Paths and IDs ----------

  function CustomPath(id: string): Path {
    "custom/" + id + ".yml"
  }

  predicate IsCustom(p: Path) {
    |p| >= 11 && p[..7] == "custom/" && p[|p| - 4..] == ".yml"
  }

  function CustomID(p: Path): string
    requires IsCustom(p)
  {
    p[7..|p| - 4]
  }

  lemma CustomPathInverse(id: string)
    ensures IsCustom(CustomPath(id)) && CustomID(CustomPath(id)) == id
  {
  }

  lemma CustomIDInverse(p: Path)
    requires IsCustom(p)
    ensures CustomPath(CustomID(p)) == p
  {
  }

  predicate HasDotDot(s: string) {
    exists i :: 0 <= i < |s| - 1 && s[i] == '.' && s[i + 1] == '.'
  }

  predicate ValidRuleID(id: string) {
    id != "" && (0 as char) !in id && '/' !in id && '\\' !in id && !HasDotDot(id)
  }

  /** A valid ID names a file directly in custom/: no slash, backslash, NUL or double dot. */
  lemma ValidRuleIDIff(id: string)
    ensures ValidRuleID(id) <==>
            && id != "" && (forall c :: c in id ==> c !in "/\\\0") && forall a, b :: id != a + ".." + b
  {
    if HasDotDot(id) {
      var i :| 0 <= i < |id| - 1 && id[i] == '.' && id[i + 1] == '.';
      assert id == id[..i] + ".." + id[i + 2..];
    }
    forall a, b | id == a + ".." + b ensures HasDotDot(id) {
      assert id[|a|] == '.' && id[|a| + 1] == '.';
    }
  }

  // ---------- Reading and writing rules ----------

  /** The content written for r: normalised, published, without its path. */
  function Pub(env: Env, r: Rule): Rule {
    var s := r.(state := PUBLISHED, path := "");
    match Normalize(env, s)
    case Ok(n) => n
    case Err(_) => s
  }

  predicate Valid(env: Env, r: Rule) {
    Normalize(env, r).Ok?
  }

  ghost predicate Readable(env: Env, t: Tree) {
    forall p :: p in t ==> Valid(env, t[p])
  }

  lemma PubFacts(env: Env, r: Rule)
    requires EnvOK(env) && Valid(env, r)
    ensures Pub(env, r).id == r.id && Pub(env, r).state == "published" && Pub(env, r).path == ""
    ensures Valid(env, Pub(env, r)) && Pub(env, Pub(env, r)) == Pub(env, r)
  {
    hide Normalize;
    NormalizeIgnoresState(env, r, PUBLISHED, "");
    NormalizeIdempotent(env, r.(state := PUBLISHED, path := ""));
  }

  /** State and path of the rule written do not matter, nor whether it was normalised before. */
  lemma PubIgnores(env: Env, r: Rule, state: string, path: string)
    requires EnvOK(env) && Valid(env, r)
    ensures var s := r.(state := state, path := path);
            Valid(env, s) && Pub(env, s) == Pub(env, r) && Pub(env, Normalize(env, s).value) == Pub(env, r)
            && Valid(env, Normalize(env, s).value) && Normalize(env, s).value.id == r.id
  {
    hide Normalize;
    var s := r.(state := state, path := path);
    NormalizeIgnoresState(env, r, state, path);
    NormalizeIdempotent(env, s);
    var n := Normalize(env, s).value;
    assert s.(state := PUBLISHED, path := "") == r.(state := PUBLISHED, path := "");
    NormalizeIgnoresState(env, s, PUBLISHED, "");
    NormalizeIgnoresState(env, n, PUBLISHED, "");
  }

  /** The tree with every file as it would be written again. */
  ghost function PubTree(env: Env, t: Tree): Tree {
    map p | p in t :: Pub(env, t[p])
  }

  /** The rules of a tree, whatever files they live in. */
  ghost function RulesOf(env: Env, t: Tree): set<Rule> {
    set p | p in t :: Pub(env, t[p])
  }

  lemma PubTreeSameRules(env: Env, t: Tree)
    requires EnvOK(env) && Readable(env, t)
    ensures RulesOf(env, PubTree(env, t)) == RulesOf(env, t)
    ensures Readable(env, PubTree(env, t))
  {
    hide Pub, Valid;
    var u := PubTree(env, t);
    forall p | p in t ensures Pub(env, u[p]) == Pub(env, t[p]) && Valid(env, u[p]) { PubFacts(env, t[p]); }
    forall r | r in RulesOf(env, t) ensures r in RulesOf(env, u) {
      var p :| p in t && Pub(env, t[p]) == r;
      assert p in u && Pub(env, u[p]) == r;
    }
    forall r | r in RulesOf(env, u) ensures r in RulesOf(env, t) {
      var p :| p in u && Pub(env, u[p]) == r;
      assert p in t;
    }
  }

  // ---------- The naming discipline ----------

  ghost predicate UniqueIDs(t: Tree) {
    forall p, q :: p in t && q in t && t[p].id == t[q].id ==> p == q
  }

  /** A tree that the release code can work with. */
  ghost predicate GoodTree(env: Env, t: Tree) {
    Readable(env, t) && UniqueIDs(t) && "" !in t
  }

  /** p is custom/<id>.yml. */
  predicate IsHome(p: Path, id: string) {
    IsCustom(p) && CustomID(p) == id
  }

  /** Publishing the rules with these IDs writes to p. */
  predicate Taken(p: Path, ids: set<string>) {
    IsCustom(p) && CustomID(p) in ids
  }

  /** The files that publishing overwrites are those of the rules that it replaces. */
  ghost predicate Covered(t: Tree, ids: set<string>) {
    forall p :: p in t ==> (t[p].id in ids <==> Taken(p, ids))
  }

  /** Each of the rules, if it is active, is at custom/<id>.yml, and no other rule is there. */
  ghost predicate AtHome(t: Tree, ids: set<string>) {
    forall p :: p in t && (t[p].id in ids || Taken(p, ids)) ==> IsHome(p, t[p].id)
  }

  // ---------- Writing several rules ----------

  /** Where a rule is written: at its own path, or under custom. */
  function PathOf(r: Rule): Path {
    if r.path != "" then r.path else CustomPath(r.id)
  }

  function WriteAll(env: Env, t: Tree, rs: seq<Rule>): Tree {
    if rs == [] then t
    else WriteAll(env, t, rs[..|rs| - 1])[PathOf(rs[|rs| - 1]) := Pub(env, rs[|rs| - 1])]
  }

  ghost predicate DistinctPaths(rs: seq<Rule>) {
    forall i, j :: 0 <= i < j < |rs| ==> PathOf(rs[i]) != PathOf(rs[j])
  }

  function Lookup(t: Tree, p: Path): Option<Rule> {
    if p in t then Some(t[p]) else None
  }

  lemma SameLookups(a: Tree, b: Tree)
    requires forall p :: Lookup(a, p) == Lookup(b, p)
    ensures a == b
  {
    forall p ensures p in a <==> p in b { assert Lookup(a, p) == Lookup(b, p); }
    forall p | p in a ensures a[p] == b[p] { assert Lookup(a, p) == Lookup(b, p); }
  }

  ghost predicate Writes(rs: seq<Rule>, p: Path) {
    exists i :: 0 <= i < |rs| && p == PathOf(rs[i])
  }

  lemma WritesLast(rs: seq<Rule>, p: Path)
    requires rs != []
    ensures Writes(rs, p) <==> Writes(rs[..|rs| - 1], p) || p == PathOf(rs[|rs| - 1])
  {
    hide PathOf;
    var init := rs[..|rs| - 1];
    if i :| 0 <= i < |init| && p == PathOf(init[i]) {
      assert rs[i] == init[i];
    }
    if i :| 0 <= i < |rs| && p == PathOf(rs[i]) {
      assert i < |init| ==> init[i] == rs[i];
    }
  }

  /** A path that is not written holds what it held. */
  lemma {:induction false} NotWritten(env: Env, t: Tree, rs: seq<Rule>, p: Path)
    requires !Writes(rs, p)
    ensures Lookup(WriteAll(env, t, rs), p) == Lookup(t, p)
  {
    hide Pub, PathOf, Writes;
    if rs != [] {
      WritesLast(rs, p);
      NotWritten(env, t, rs[..|rs| - 1], p);
    }
  }

  /** Each path that is written holds its rule. */
  lemma {:induction false} WrittenAt(env: Env, t: Tree, rs: seq<Rule>, i: nat)
    requires i < |rs| && DistinctPaths(rs)
    ensures Lookup(WriteAll(env, t, rs), PathOf(rs[i])) == Some(Pub(env, rs[i]))
  {
    hide Pub, PathOf;
    if i < |rs| - 1 {
      assert rs[..|rs| - 1][i] == rs[i];
      WrittenAt(env, t, rs[..|rs| - 1], i);
    }
  }

  // ---------- Publishing ----------

  /** r is a rule to write for staged rule r.id, under custom. */
  ghost predicate StagedEntry(env: Env, staged: map<string, Rule>, r: Rule) {
    r.id in staged && PathOf(r) == CustomPath(r.id) && Pub(env, r) == Pub(env, staged[r.id])
  }

  ghost predicate StagedList(env: Env, staged: map<string, Rule>, rs: seq<Rule>) {
    forall i :: 0 <= i < |rs| ==> StagedEntry(env, staged, rs[i])
  }

  /** Staged files are named after their rules, and can be read. */
  ghost predicate StagedOK(env: Env, staged: map<string, Rule>) {
    forall id :: id in staged ==> staged[id].id == id && Valid(env, staged[id])
  }

  ghost predicate DistinctIDs(rs: seq<Rule>) {
    forall i, j :: 0 <= i < j < |rs| ==> rs[i].id != rs[j].id
  }

  function IDs(rs: seq<Rule>): set<string> {
    set r | r in rs :: r.id
  }

  /** What p holds when the staged rules in ids have been written over t. */
  function Overlay(env: Env, t: Tree, staged: map<string, Rule>, ids: set<string>, p: Path): Option<Rule>
    requires ids <= staged.Keys
  {
    if Taken(p, ids) then Some(Pub(env, staged[CustomID(p)])) else Lookup(t, p)
  }

  lemma StagedIDs(env: Env, staged: map<string, Rule>, rs: seq<Rule>)
    requires StagedList(env, staged, rs)
    ensures IDs(rs) <= staged.Keys
  {
  }

  lemma {:induction false} WriteStaged(env: Env, t: Tree, staged: map<string, Rule>, rs: seq<Rule>)
    requires StagedList(env, staged, rs)
    ensures IDs(rs) <= staged.Keys
    ensures forall p :: Lookup(WriteAll(env, t, rs), p) == Overlay(env, t, staged, IDs(rs), p)
  {
    hide Pub, CustomPath, IsCustom, CustomID;
    StagedIDs(env, staged, rs);
    if rs != [] {
      var init, last := rs[..|rs| - 1], rs[|rs| - 1];
      WriteStaged(env, t, staged, init);
      assert StagedEntry(env, staged, last);
      CustomNotEmpty(last.id);
      assert rs == init + [last];
      assert IDs(rs) == IDs(init) + {last.id};
      forall p ensures Lookup(WriteAll(env, t, rs), p) == Overlay(env, t, staged, IDs(rs), p) {
        CustomPathInverse(last.id);
        if IsCustom(p) { CustomIDInverse(p); }
        assert Lookup(WriteAll(env, t, init), p) == Overlay(env, t, staged, IDs(init), p);
      }
    }
  }

  lemma CustomNotEmpty(id: string)
    ensures CustomPath(id) != ""
  {
  }

  /** What one file of the tree after writing is. */
  lemma OverlayFile(env: Env, t: Tree, staged: map<string, Rule>, ids: set<string>, w: Tree, p: Path)
    requires EnvOK(env) && StagedOK(env, staged) && ids <= staged.Keys
    requires Lookup(w, p) == Overlay(env, t, staged, ids, p) && p in w
    ensures Taken(p, ids) ==>
              && w[p] == Pub(env, staged[CustomID(p)]) && w[p].id == CustomID(p)
              && Valid(env, w[p]) && Pub(env, w[p]) == w[p]
    ensures !Taken(p, ids) ==> p in t && w[p] == t[p]
  {
    hide Pub, Valid;
    if Taken(p, ids) {
      PubFacts(env, staged[CustomID(p)]);
    }
  }

  /** Writing staged rules, all of them or some, keeps the discipline if they are at home. */
  lemma OverlayIsGood(env: Env, t: Tree, staged: map<string, Rule>, ids: set<string>, w: Tree)
    requires EnvOK(env) && GoodTree(env, t) && StagedOK(env, staged) && AtHome(t, staged.Keys)
    requires ids <= staged.Keys && forall p :: Lookup(w, p) == Overlay(env, t, staged, ids, p)
    ensures GoodTree(env, w) && AtHome(w, staged.Keys)
  {
    hide Pub, Valid, Overlay;
    forall p | p in w
      ensures Valid(env, w[p]) && p != ""
      ensures w[p].id in staged || Taken(p, staged.Keys) ==> IsHome(p, w[p].id)
      ensures w[p].id !in staged ==> p in t && w[p] == t[p]
    {
      OverlayFile(env, t, staged, ids, w, p);
    }
    hide IsCustom, CustomID;
    forall p, q | p in w && q in w && w[p].id == w[q].id ensures p == q {
      if w[p].id in staged {
        CustomIDInverse(p);
        CustomIDInverse(q);
      }
    }
  }

  /** By ID, the old rules overridden by the staged ones. */
  ghost predicate Merged(env: Env, t: Tree, staged: map<string, Rule>, now: Tree) {
    forall r :: r in RulesOf(env, now) <==>
                if r.id in staged then r == Pub(env, staged[r.id]) else r in RulesOf(env, t)
  }

  /** Publishing all staged rules over a tree that they cover overrides the active rules with them. */
  lemma OverlayMerges(env: Env, t: Tree, staged: map<string, Rule>, w: Tree)
    requires EnvOK(env) && GoodTree(env, t) && StagedOK(env, staged) && Covered(t, staged.Keys)
    requires forall p :: Lookup(w, p) == Overlay(env, t, staged, staged.Keys, p)
    ensures Merged(env, t, staged, w)
  {
    hide Pub, Valid, RulesOf, IsCustom, CustomID;
    forall r ensures r in RulesOf(env, w) <==>
                     if r.id in staged then r == Pub(env, staged[r.id]) else r in RulesOf(env, t)
    {
      RuleFrom(env, w, r);
      RuleFrom(env, t, r);
      if p :| p in w && Pub(env, w[p]) == r {
        OverlayFile(env, t, staged, staged.Keys, w, p);
        if !Taken(p, staged.Keys) { PubFacts(env, t[p]); }
      }
      if r.id in staged && r == Pub(env, staged[r.id]) {
        StagedRuleIsThere(env, t, staged, w, r.id);
      }
      if r.id !in staged && r in RulesOf(env, t) {
        var p :| p in t && Pub(env, t[p]) == r;
        PubFacts(env, t[p]);
        assert Lookup(w, p) == Overlay(env, t, staged, staged.Keys, p);
      }
    }
  }

  lemma RuleFrom(env: Env, t: Tree, r: Rule)
    ensures r in RulesOf(env, t) <==> exists p :: p in t && Pub(env, t[p]) == r
  {
    hide Pub;
  }

  lemma StagedRuleIsThere(env: Env, t: Tree, staged: map<string, Rule>, w: Tree, id: string)
    requires EnvOK(env) && StagedOK(env, staged) && id in staged
    requires forall p :: Lookup(w, p) == Overlay(env, t, staged, staged.Keys, p)
    ensures var p := CustomPath(id);
            Taken(p, staged.Keys) && p in w && w[p].id == id && Pub(env, w[p]) == Pub(env, staged[id])
  {
    hide Pub, Valid;
    CustomPathInverse(id);
    PubFacts(env, staged[id]);
    assert Lookup(w, CustomPath(id)) == Overlay(env, t, staged, staged.Keys, CustomPath(id));
  }

  /** The code does not check where active rules live. Publishing everything staged over a good tree
      keeps the rule IDs unique if and only if every active rule that is staged lives at a path that is
      overwritten. */
  lemma UniqueAfterPublishIff(env: Env, t: Tree, staged: map<string, Rule>, w: Tree)
    requires EnvOK(env) && GoodTree(env, t) && StagedOK(env, staged)
    requires forall p :: Lookup(w, p) == Overlay(env, t, staged, staged.Keys, p)
    ensures UniqueIDs(w) <==> forall p :: p in t && t[p].id in staged ==> Taken(p, staged.Keys)
  {
    hide Pub, Valid, Overlay, IsCustom, CustomID;
    if p :| p in t && t[p].id in staged && !Taken(p, staged.Keys) {
      StagedRuleIsThere(env, t, staged, w, t[p].id);
      NotTakenStays(env, t, staged, w, p);
    } else {
      forall p, q | p in w && q in w && w[p].id == w[q].id ensures p == q {
        OverlayFile(env, t, staged, staged.Keys, w, p);
        OverlayFile(env, t, staged, staged.Keys, w, q);
        if IsCustom(p) { CustomIDInverse(p); }
        if IsCustom(q) { CustomIDInverse(q); }
      }
    }
  }

  lemma NotTakenStays(env: Env, t: Tree, staged: map<string, Rule>, w: Tree, p: Path)
    requires p in t && !Taken(p, staged.Keys) && Lookup(w, p) == Overlay(env, t, staged, staged.Keys, p)
    ensures p in w && w[p] == t[p]
  {
  }

  /** Publishing over a good tree keeps IDs unique and merges by ID if and only if the files that it
      overwrites are those of the rules that it replaces. */
  lemma PublishMergesIff(env: Env, t: Tree, staged: map<string, Rule>, w: Tree)
    requires EnvOK(env) && GoodTree(env, t) && StagedOK(env, staged)
    requires forall p :: Lookup(w, p) == Overlay(env, t, staged, staged.Keys, p)
    ensures UniqueIDs(w) && Merged(env, t, staged, w) <==> Covered(t, staged.Keys)
  {
    hide Pub, Valid, Overlay, IsCustom, CustomID, RulesOf, Merged, Taken;
    UniqueAfterPublishIff(env, t, staged, w);
    if Covered(t, staged.Keys) {
      OverlayMerges(env, t, staged, w);
    }
    if UniqueIDs(w) && Merged(env, t, staged, w) {
      forall p | p in t && Taken(p, staged.Keys) ensures t[p].id in staged {
        if t[p].id !in staged {
          MergedKeeps(env, t, staged, w, p);
          assert false;
        }
      }
    }
  }

  /** A rule that is not staged survives a merge, so its file has not been overwritten. */
  lemma MergedKeeps(env: Env, t: Tree, staged: map<string, Rule>, w: Tree, p: Path)
    requires EnvOK(env) && GoodTree(env, t) && StagedOK(env, staged) && Merged(env, t, staged, w)
    requires forall q :: Lookup(w, q) == Overlay(env, t, staged, staged.Keys, q)
    requires p in t && t[p].id !in staged
    ensures !Taken(p, staged.Keys)
  {
    hide Pub, Valid, RulesOf, IsCustom, CustomID;
    var r := Pub(env, t[p]);
    PubFacts(env, t[p]);
    RuleFrom(env, t, r);
    RuleFrom(env, w, r);
    var q :| q in w && Pub(env, w[q]) == r;
    OverlayFile(env, t, staged, staged.Keys, w, q);
    if !Taken(q, staged.Keys) {
      PubFacts(env, t[q]);
    }
  }

  /** Publishing everything over a tree that it covers leaves a good tree. */
  lemma CoveredIsGood(env: Env, t: Tree, staged: map<string, Rule>, w: Tree)
    requires EnvOK(env) && GoodTree(env, t) && StagedOK(env, staged) && Covered(t, staged.Keys)
    requires forall p :: Lookup(w, p) == Overlay(env, t, staged, staged.Keys, p)
    ensures GoodTree(env, w)
  {
    hide Pub, Valid, Overlay, Taken;
    UniqueAfterPublishIff(env, t, staged, w);
    forall p | p in w ensures Valid(env, w[p]) && p != "" {
      OverlayFile(env, t, staged, staged.Keys, w, p);
      NeverTaken(staged.Keys);
    }
  }

  lemma NeverTaken(ids: set<string>)
    ensures !Taken("", ids)
  {
  }

  // ---------- The snapshot of a publish ----------

  /** r is the rule that a snapshot stores for r.id: the staged one, or else the active one. */
  ghost predicate FutureEntry(env: Env, t: Tree, staged: map<string, Rule>, r: Rule) {
    if r.id in staged then StagedEntry(env, staged, r)
    else r.path in t && t[r.path].id == r.id && Pub(env, r) == Pub(env, t[r.path])
  }

  ghost predicate FutureList(env: Env, t: Tree, staged: map<string, Rule>, rs: seq<Rule>) {
    && DistinctIDs(rs)
    && (forall i :: 0 <= i < |rs| ==> FutureEntry(env, t, staged, rs[i]))
    && (forall id :: id in staged ==> id in IDs(rs))
    && (forall p :: p in t ==> t[p].id in IDs(rs))
  }

  /** A rule to be stored has one path: its file's, or custom/<id>.yml. */
  lemma FuturePath(env: Env, t: Tree, staged: map<string, Rule>, r: Rule)
    requires GoodTree(env, t) && FutureEntry(env, t, staged, r) && Covered(t, staged.Keys)
    ensures if r.id in staged then IsHome(PathOf(r), r.id) else PathOf(r) == r.path
    ensures r.id in staged <==> Taken(PathOf(r), staged.Keys)
  {
    hide Pub, Valid;
    CustomNotEmpty(r.id);
    CustomPathInverse(r.id);
  }

  lemma FuturePathsDistinct(env: Env, t: Tree, staged: map<string, Rule>, rs: seq<Rule>)
    requires GoodTree(env, t) && FutureList(env, t, staged, rs) && Covered(t, staged.Keys)
    ensures DistinctPaths(rs)
  {
    hide IsCustom, CustomID, Pub, Valid, PathOf, CustomPath, Covered, Taken;
    forall i, j | 0 <= i < j < |rs| ensures PathOf(rs[i]) != PathOf(rs[j]) {
      assert FutureEntry(env, t, staged, rs[i]) && FutureEntry(env, t, staged, rs[j]);
      FuturePath(env, t, staged, rs[i]);
      FuturePath(env, t, staged, rs[j]);
    }
  }

  /** The snapshot and the tree after publishing are the same tree, but for the form of the files. */
  lemma SnapshotIsPublishedTree(env: Env, t: Tree, staged: map<string, Rule>, w: Tree, rs: seq<Rule>)
    requires EnvOK(env) && GoodTree(env, t) && StagedOK(env, staged) && Covered(t, staged.Keys)
    requires forall p :: Lookup(w, p) == Overlay(env, t, staged, staged.Keys, p)
    requires FutureList(env, t, staged, rs)
    ensures WriteAll(env, map[], rs) == PubTree(env, w)
  {
    hide Pub, Valid, Overlay, FutureEntry, GoodTree, Covered, PathOf;
    var snap := WriteAll(env, map[], rs);
    FuturePathsDistinct(env, t, staged, rs);
    forall p | p in snap ensures p in w && snap[p] == Pub(env, w[p]) {
      if !Writes(rs, p) {
        NotWritten(env, map[], rs, p);
      }
      var i :| 0 <= i < |rs| && p == PathOf(rs[i]);
      WrittenAt(env, map[], rs, i);
      assert FutureEntry(env, t, staged, rs[i]);
      StoredIsPublished(env, t, staged, w, rs[i]);
    }
    forall p | p in w ensures p in snap {
      PublishedIsStored(env, t, staged, w, rs, p);
      var i :| 0 <= i < |rs| && p == PathOf(rs[i]);
      WrittenAt(env, map[], rs, i);
    }
  }

  lemma StoredIsPublished(env: Env, t: Tree, staged: map<string, Rule>, w: Tree, r: Rule)
    requires EnvOK(env) && GoodTree(env, t) && StagedOK(env, staged) && Covered(t, staged.Keys)
    requires forall p :: Lookup(w, p) == Overlay(env, t, staged, staged.Keys, p)
    requires FutureEntry(env, t, staged, r)
    ensures PathOf(r) in w && Pub(env, w[PathOf(r)]) == Pub(env, r)
  {
    hide Pub, Valid;
    FuturePath(env, t, staged, r);
    assert Lookup(w, PathOf(r)) == Overlay(env, t, staged, staged.Keys, PathOf(r));
    if r.id in staged {
      PubFacts(env, staged[r.id]);
    }
  }

  lemma PublishedIsStored(env: Env, t: Tree, staged: map<string, Rule>, w: Tree, rs: seq<Rule>, p: Path)
    requires EnvOK(env) && GoodTree(env, t) && StagedOK(env, staged) && Covered(t, staged.Keys)
    requires forall q :: Lookup(w, q) == Overlay(env, t, staged, staged.Keys, q)
    requires FutureList(env, t, staged, rs) && p in w
    ensures exists i :: 0 <= i < |rs| && p == PathOf(rs[i])
  {
    hide Pub, Valid, WriteAll;
    OverlayFile(env, t, staged, staged.Keys, w, p);
    var id := w[p].id;
    assert id in IDs(rs);
    var r :| r in rs && r.id == id;
    var i :| 0 <= i < |rs| && rs[i] == r;
    assert FutureEntry(env, t, staged, rs[i]);
    FuturePath(env, t, staged, r);
    if id in staged {
      CustomIDInverse(p);
      CustomIDInverse(PathOf(r));
    }
    assert p == PathOf(rs[i]);
  }

  // ---------- The snapshot of a rollback ----------

  /** The rules of a tree by ID. */
  ghost predicate ByID(t: Tree, m: map<string, Rule>) {
    && (forall p :: p in t ==> t[p].id in m && m[t[p].id] == t[p])
    && (forall id :: id in m ==> exists p :: p in t && t[p].id == id)
  }

  /** Written without their paths, the rules all go under custom: other files, but the same rules. */
  lemma FlattenedSameRules(env: Env, t: Tree, m: map<string, Rule>, rs: seq<Rule>)
    requires EnvOK(env) && GoodTree(env, t) && ByID(t, m)
    requires StagedList(env, m, rs) && IDs(rs) == m.Keys
    ensures var w := WriteAll(env, map[], rs);
            GoodTree(env, w) && RulesOf(env, w) == RulesOf(env, t)
  {
    hide Pub, Valid, Overlay, WriteAll, CustomPath, CustomID, IsCustom, PathOf, RulesOf;
    var w := WriteAll(env, map[], rs);
    WriteStaged(env, map[], m, rs);
    CoveredIsGood(env, map[], m, w);
    OverlayMerges(env, map[], m, w);
    forall r ensures r in RulesOf(env, w) <==> r in RulesOf(env, t) {
      RuleFrom(env, t, r);
      RuleFrom(env, map[], r);
      if p :| p in t && Pub(env, t[p]) == r {
        PubFacts(env, t[p]);
      }
      if r.id in m && r == Pub(env, m[r.id]) {
        var p :| p in t && t[p].id == r.id;
        assert Pub(env, t[p]) == r;
      }
    }
  }

  // ---------- Restoring ----------

  datatype Backup = Backup(path: Path, before: Option<Rule>)

  function PutBack(t: Tree, b: Backup): Tree {
    match b.before
    case None => t - {b.path}
    case Some(r) => t[b.path := r]
  }

  /** The backup for each path in order, on top of t. */
  function RestoreAll(t: Tree, bs: seq<Backup>): Tree
    decreases |bs|
  {
    if bs == [] then t else RestoreAll(PutBack(t, bs[0]), bs[1..])
  }

  predicate InBackups(bs: seq<Backup>, p: Path) {
    exists i :: 0 <= i < |bs| && bs[i].path == p
  }

  ghost predicate TrueBackups(t: Tree, bs: seq<Backup>) {
    forall i :: 0 <= i < |bs| ==> bs[i].before == Lookup(t, bs[i].path)
  }

  /** If only backed-up paths have changed, restoring the backups gives back the tree exactly. */
  lemma {:induction false} RestoreAllAt(t: Tree, now: Tree, bs: seq<Backup>)
    requires TrueBackups(t, bs)
    requires forall p :: Lookup(now, p) == Lookup(t, p) || InBackups(bs, p)
    ensures RestoreAll(now, bs) == t
    decreases |bs|
  {
    if bs == [] {
      forall p ensures Lookup(now, p) == Lookup(t, p) { assert Lookup(now, p) == Lookup(t, p) || InBackups(bs, p); }
      SameLookups(now, t);
    } else {
      var next := PutBack(now, bs[0]);
      forall p ensures Lookup(next, p) == Lookup(t, p) || InBackups(bs[1..], p) {
        if p != bs[0].path && Lookup(now, p) != Lookup(t, p) {
          var i :| 0 <= i < |bs| && bs[i].path == p;
          assert bs[1..][i - 1].path == p;
        }
      }
      RestoreAllAt(t, next, bs[1..]);
    }
  }

  /** Some rules have been written, and every path written has its backup. */
  lemma RestoreUndoesWrites(env: Env, t: Tree, rs: seq<Rule>, bs: seq<Backup>)
    requires TrueBackups(t, bs)
    requires forall i :: 0 <= i < |rs| ==> InBackups(bs, PathOf(rs[i]))
    ensures RestoreAll(WriteAll(env, t, rs), bs) == t
  {
    hide Pub, PathOf, InBackups, WriteAll, Writes;
    forall p ensures Lookup(WriteAll(env, t, rs), p) == Lookup(t, p) || InBackups(bs, p) {
      if !Writes(rs, p) {
        NotWritten(env, t, rs, p);
      } else {
        WrittenPath(rs, bs, p);
      }
    }
    RestoreAllAt(t, WriteAll(env, t, rs), bs);
  }

  lemma WrittenPath(rs: seq<Rule>, bs: seq<Backup>, p: Path)
    requires Writes(rs, p) && forall i :: 0 <= i < |rs| ==> InBackups(bs, PathOf(rs[i]))
    ensures InBackups(bs, p)
  {
    hide PathOf, InBackups;
  }
}
