/** The rule release manager: an active tree, a staged set, and numbered snapshots, with publishing
    and rolling back as steps. Any file operation, reload or record may fail, by an arbitrary
    schedule.

    The ghost field ledger remembers, for each completed release, which rules were active when it
    was made. */
module Release {
  import opened Wrappers
  import opened Ordering
  import opened Rules
  import opened ReleaseSpec

  /** A rule read from a file: the normalised rule with its path, and the file's content. */
  datatype FileRule = FileRule(rule: Rule, rel: Path, data: Rule)

  type View = map<string, FileRule>

  ghost predicate FileRuleOK(env: Env, f: FileRule, id: string) {
    && f.data.id == id && f.rule.id == id && f.rule.path != ""
    && Normalize(env, f.rule) == Ok(f.rule) && Pub(env, f.rule) == Pub(env, f.data)
  }

  /** m holds, for each ID, a file of t with that ID. */
  ghost predicate ActiveView(env: Env, t: Tree, m: View) {
    && (forall id :: id in m ==> FileRuleOK(env, m[id], id) && m[id].rel in t && m[id].data == t[m[id].rel]
                                 && m[id].rule.path == m[id].rel)
    && (forall p :: p in t ==> t[p].id in m)
  }

  ghost predicate StagedView(env: Env, staged: map<string, Rule>, m: View) {
    && m.Keys == staged.Keys
    && forall id :: id in m ==> FileRuleOK(env, m[id], id) && m[id].data == staged[id] && m[id].rule.path == CustomPath(id)
  }

  // ---------- Release items ----------

  datatype Op = Add | Update | Unchanged | Remove

  /** before and after stand for the content hashes. */
  datatype Item = Item(ruleID: string, op: Op, before: Option<Rule>, after: Option<Rule>, path: Path)

  function DataOf(m: View, id: string): Option<Rule> {
    if id in m then Some(m[id].data) else None
  }

  /** What publishing does to the rule id. */
  function PublishItem(active: View, staged: View): string -> Item {
    (id: string) => Item(id, if id in active then Update else Add, DataOf(active, id), DataOf(staged, id), CustomPath(id))
  }

  /** What a rollback does to the rule id. */
  function RollbackItem(before: View, after: View): string -> Item {
    (id: string) =>
      Item(id,
           if id !in after then Remove
           else if id !in before then Add
           else if before[id].data == after[id].data then Unchanged else Update,
           DataOf(before, id), DataOf(after, id),
           if id in after then after[id].rel else if id in before then before[id].rel else "")
  }

  /** One item for each of the IDs, as item says. */
  ghost predicate ItemsFor(items: seq<Item>, ids: set<string>, item: string -> Item) {
    NoDuplicates(items) && forall x :: x in items <==> x.ruleID in ids && x == item(x.ruleID)
  }

  function OpCount(items: seq<Item>, op: Op): nat {
    if items == [] then 0 else (if items[|items| - 1].op == op then 1 else 0) + OpCount(items[..|items| - 1], op)
  }

  method CountOps(items: seq<Item>, op: Op) returns (n: nat)
    ensures n == OpCount(items, op)
  {
    n := 0;
    for i := 0 to |items|
      invariant n == OpCount(items[..i], op)
    {
      assert items[..i + 1][..i] == items[..i];
      if items[i].op == op {
        n := n + 1;
      }
    }
    assert items[..|items|] == items;
  }

  /** The IDs to which an operation happens. */
  ghost function With(ids: set<string>, item: string -> Item, op: Op): set<string> {
    set id | id in ids && item(id).op == op
  }

  /** The number of items with an operation is the number of IDs to which that happens. */
  lemma {:induction false} OpCountIs(items: seq<Item>, ids: set<string>, item: string -> Item, op: Op)
    requires ItemsFor(items, ids, item) && forall id :: item(id).ruleID == id
    ensures OpCount(items, op) == |With(ids, item, op)|
    decreases |items|
  {
    hide ItemsFor, With;
    if items == [] {
      NothingWith(ids, item, op);
    } else {
      var init, last := items[..|items| - 1], items[|items| - 1];
      ItemsLess(items, ids, item);
      OpCountIs(init, ids - {last.ruleID}, item, op);
      WithLess(ids, item, op, last.ruleID);
    }
  }

  lemma NothingWith(ids: set<string>, item: string -> Item, op: Op)
    requires ItemsFor([], ids, item) && forall id :: item(id).ruleID == id
    ensures With(ids, item, op) == {}
  {
    var none: seq<Item> := [];
    assert forall id :: id in ids ==> item(id) in none;
  }

  lemma WithLess(ids: set<string>, item: string -> Item, op: Op, id: string)
    requires id in ids
    ensures |With(ids, item, op)| == |With(ids - {id}, item, op)| + if item(id).op == op then 1 else 0
  {
    assert With(ids, item, op) == With(ids - {id}, item, op) + if item(id).op == op then {id} else {};
  }

  lemma ItemsLess(items: seq<Item>, ids: set<string>, item: string -> Item)
    requires ItemsFor(items, ids, item) && items != []
    ensures var init, last := items[..|items| - 1], items[|items| - 1];
            ItemsFor(init, ids - {last.ruleID}, item) && last.ruleID in ids && item(last.ruleID) == last
  {
    assert items == items[..|items| - 1] + [items[|items| - 1]];
    assert items[|items| - 1] in items;
  }

  lemma ItemsMore(items: seq<Item>, ids: set<string>, item: string -> Item, id: string)
    requires ItemsFor(items, ids, item) && id !in ids && item(id).ruleID == id
    ensures ItemsFor(items + [item(id)], ids + {id}, item)
  {
    var more := items + [item(id)];
    assert forall x :: x in more <==> x in items || x == item(id);
    forall i | 0 <= i < |items| ensures items[i] != item(id) { assert items[i] in items; }
  }

  function ItemLess(): (Item, Item) -> bool {
    (a: Item, b: Item) => StrLess(a.ruleID, b.ruleID)
  }

  lemma ItemsSorted(items: seq<Item>, ids: set<string>, item: string -> Item)
    requires ItemsFor(items, ids, item)
    ensures var s := StableSort(ItemLess(), items); ItemsFor(s, ids, item) && Sorted(ItemLess(), s)
  {
    hide StableSort;
    var s := StableSort(ItemLess(), items);
    ItemOrder();
    StableSortCorrect(ItemLess(), items);
    NoDuplicatesPermuted(items, s);
    forall x ensures x in s <==> x in items {
      assert x in s <==> x in multiset(s);
      assert x in items <==> x in multiset(items);
    }
  }

  lemma ItemOrder()
    ensures StrictWeakOrder(ItemLess())
  {
    hide StrLess;
    StrLessIsStrictTotal();
  }

  /** What publishing does: one item for each staged rule. */
  method ReleaseItems(active: View, staged: View) returns (items: seq<Item>)
    ensures ItemsFor(items, staged.Keys, PublishItem(active, staged)) && Sorted(ItemLess(), items)
  {
    hide ItemsFor, StableSort, Sorted;
    items := [];
    ghost var item := PublishItem(active, staged);
    NoItems(item);
    var todo := staged.Keys;
    assert staged.Keys - todo == {};
    while todo != {}
      invariant todo <= staged.Keys && ItemsFor(items, staged.Keys - todo, item)
      decreases todo
    {
      var id :| id in todo;
      ItemsMore(items, staged.Keys - todo, item, id);
      assert staged.Keys - todo + {id} == staged.Keys - (todo - {id});
      var op, before := Add, None;
      if id in active {
        op, before := Update, Some(active[id].data);
      }
      items := items + [Item(id, op, before, Some(staged[id].data), CustomPath(id))];
      todo := todo - {id};
    }
    assert staged.Keys - {} == staged.Keys;
    ItemsSorted(items, staged.Keys, item);
    items := StableSort(ItemLess(), items);
  }

  lemma NoItems(item: string -> Item)
    ensures ItemsFor([], {}, item)
  {
  }

  /** The items for the rules after a rollback. */
  method ItemsAfter(before: View, after: View) returns (items: seq<Item>)
    ensures ItemsFor(items, after.Keys, RollbackItem(before, after))
  {
    hide ItemsFor;
    items := [];
    ghost var item := RollbackItem(before, after);
    NoItems(item);
    var todo := after.Keys;
    assert after.Keys - todo == {};
    while todo != {}
      invariant todo <= after.Keys && ItemsFor(items, after.Keys - todo, item)
      decreases todo
    {
      var id :| id in todo;
      ItemsMore(items, after.Keys - todo, item, id);
      assert after.Keys - todo + {id} == after.Keys - (todo - {id});
      var op, was := Add, None;
      if id in before {
        op, was := if before[id].data == after[id].data then Unchanged else Update, Some(before[id].data);
      }
      items := items + [Item(id, op, was, Some(after[id].data), after[id].rel)];
      todo := todo - {id};
    }
    assert after.Keys - {} == after.Keys;
  }

  /** All of first, and of second what is not left to do. */
  ghost function Seen(first: set<string>, second: set<string>, todo: set<string>): set<string> {
    first + (second - todo)
  }

  lemma NoneSeen(first: set<string>, second: set<string>)
    ensures Seen(first, second, second) == first && Seen(first, second, {}) == second + first
  {
  }

  lemma OneSeen(first: set<string>, second: set<string>, todo: set<string>, id: string)
    requires id in todo && todo <= second
    ensures Seen(first, second, todo - {id}) == if id in first then Seen(first, second, todo) else Seen(first, second, todo) + {id}
    ensures id in Seen(first, second, todo) <==> id in first
  {
  }

  /** What a rollback does: one item for each rule before or after it. */
  method DiffReleaseItems(before: View, after: View) returns (items: seq<Item>)
    ensures ItemsFor(items, before.Keys + after.Keys, RollbackItem(before, after)) && Sorted(ItemLess(), items)
  {
    hide ItemsFor, StableSort, Sorted, Seen;
    items := ItemsAfter(before, after);
    ghost var item := RollbackItem(before, after);
    var todo := before.Keys;
    ghost var seen := after.Keys;
    NoneSeen(after.Keys, before.Keys);
    while todo != {}
      invariant todo <= before.Keys && seen == Seen(after.Keys, before.Keys, todo) && ItemsFor(items, seen, item)
      decreases todo
    {
      var id :| id in todo;
      OneSeen(after.Keys, before.Keys, todo, id);
      if id !in after {
        ItemsMore(items, seen, item, id);
        items := items + [Item(id, Remove, Some(before[id].data), None, before[id].rel)];
        seen := seen + {id};
      }
      todo := todo - {id};
    }
    ItemsSorted(items, seen, item);
    items := StableSort(ItemLess(), items);
  }

  /** How many rules a publish adds and updates; it removes none. */
  lemma PublishOps(active: View, staged: View, items: seq<Item>)
    requires ItemsFor(items, staged.Keys, PublishItem(active, staged))
    ensures OpCount(items, Add) == |staged.Keys - active.Keys| && OpCount(items, Update) == |staged.Keys * active.Keys|
    ensures OpCount(items, Unchanged) == 0 && OpCount(items, Remove) == 0
  {
    hide ItemsFor, OpCount, PublishItem, With, DataOf;
    var item := PublishItem(active, staged);
    PublishSets(active, staged);
    forall op { OpCountIs(items, staged.Keys, item, op); }
  }

  lemma PublishSets(active: View, staged: View)
    ensures var ids, item := staged.Keys, PublishItem(active, staged);
            && With(ids, item, Add) == ids - active.Keys && With(ids, item, Update) == ids * active.Keys
            && With(ids, item, Remove) == {} && With(ids, item, Unchanged) == {} && forall id :: item(id).ruleID == id
  {
    hide PublishItem, With;
    PublishItemIs(active, staged);
    forall op { WithIs(staged.Keys, PublishItem(active, staged), op); }
  }

  lemma PublishItemIs(active: View, staged: View)
    ensures forall id :: var x := PublishItem(active, staged)(id); x.ruleID == id && x.op == if id in active then Update else Add
    ensures forall id :: id in staged ==> var x := PublishItem(active, staged)(id);
                                          && x.after == Some(staged[id].data) && x.path == CustomPath(id)
                                          && x.before == if id in active then Some(active[id].data) else None
  {
    hide CustomPath;
  }

  lemma WithIs(ids: set<string>, item: string -> Item, op: Op)
    ensures forall id :: id in With(ids, item, op) <==> id in ids && item(id).op == op
  {
  }

  /** The rules in both whose content differs. */
  ghost function Changed(before: View, after: View): set<string> {
    set id | id in before && id in after && before[id].data != after[id].data
  }

  /** How many rules a rollback adds, changes, removes, and leaves as they are. */
  lemma RollbackOps(before: View, after: View, items: seq<Item>)
    requires ItemsFor(items, before.Keys + after.Keys, RollbackItem(before, after))
    ensures OpCount(items, Add) == |after.Keys - before.Keys| && OpCount(items, Remove) == |before.Keys - after.Keys|
    ensures OpCount(items, Update) == |Changed(before, after)|
    ensures OpCount(items, Unchanged) == |before.Keys * after.Keys - Changed(before, after)|
  {
    hide ItemsFor, OpCount, RollbackItem, With, Changed;
    var ids, item := before.Keys + after.Keys, RollbackItem(before, after);
    RollbackSets(before, after);
    forall op { OpCountIs(items, ids, item, op); }
  }

  lemma RollbackSets(before: View, after: View)
    ensures var ids, item := before.Keys + after.Keys, RollbackItem(before, after);
            && With(ids, item, Add) == after.Keys - before.Keys && With(ids, item, Remove) == before.Keys - after.Keys
            && With(ids, item, Update) == Changed(before, after)
            && With(ids, item, Unchanged) == before.Keys * after.Keys - Changed(before, after)
            && forall id :: item(id).ruleID == id
  {
    hide RollbackItem, With;
    var ids, item := before.Keys + after.Keys, RollbackItem(before, after);
    forall id
      ensures item(id).ruleID == id && (item(id).op == Remove <==> id !in after) && (item(id).op == Add <==> id in after && id !in before)
      ensures item(id).op == Update <==> id in Changed(before, after)
    {
      RollbackItemIs(before, after, id);
    }
    forall op { WithIs(ids, item, op); }
  }

  lemma RollbackItemIs(before: View, after: View, id: string)
    ensures var x := RollbackItem(before, after)(id);
            && x.ruleID == id && (x.op == Remove <==> id !in after) && (x.op == Add <==> id in after && id !in before)
            && (x.op == Update <==> id in Changed(before, after))
            && x.before == (if id in before then Some(before[id].data) else None)
            && x.after == (if id in after then Some(after[id].data) else None)
            && (id in after ==> x.path == after[id].rel) && (id !in after && id in before ==> x.path == before[id].rel)
  {
  }

  /** Rule counts balance. */
  lemma CountsBalance(before: set<string>, after: set<string>)
    ensures |after| == |before| + |after - before| - |before - after|
    ensures |before + after| == |before| + |after - before|
  {
  }

  // ---------- Pre-publish checks ----------

  /** A conflict that blocks publishing: a regex rule whose pattern does not compile, or one ID twice. */
  ghost predicate CriticalConflict(env: Env, rs: seq<Rule>) {
    || (exists i :: 0 <= i < |rs| && rs[i].kind == "regex" && exists p :: p in rs[i].patterns && !env.compiles(p))
    || (exists i, j :: 0 <= i < j < |rs| && rs[i].id == rs[j].id)
  }

  method DetectCriticalConflict(env: Env, rs: seq<Rule>) returns (critical: bool)
    ensures critical <==> CriticalConflict(env, rs)
  {
    critical := false;
    var ids: set<string> := {};
    for k := 0 to |rs|
      invariant ids == set i | 0 <= i < k :: rs[i].id
      invariant critical <==>
                || (exists i :: 0 <= i < k && rs[i].kind == "regex" && exists p :: p in rs[i].patterns && !env.compiles(p))
                || (exists i, j :: 0 <= i < j < k && rs[i].id == rs[j].id)
    {
      if rs[k].kind == "regex" && exists p :: p in rs[k].patterns && !env.compiles(p) {
        critical := true;
      }
      if rs[k].id in ids {
        critical := true;
      }
      ids := ids + {rs[k].id};
    }
  }

  /** The future rules never have one: they are normalised, and kept by ID. */
  lemma NoCriticalConflict(env: Env, rs: seq<Rule>)
    requires DistinctIDs(rs)
    requires AllNormal(env, rs)
    ensures !CriticalConflict(env, rs)
  {
    hide Named, Defaulted, Cleaned;
    forall i | 0 <= i < |rs| && rs[i].kind == "regex" ensures forall p :: p in rs[i].patterns ==> env.compiles(p) {
      assert Normalize(env, rs[i]) == Ok(rs[i]);
    }
  }

  // ---------- The manager ----------

  datatype Record = Record(version: nat, ruleCount: nat, added: nat, updated: nat, removed: nat)

  datatype Outcome =
    | Unreadable               // a file or a snapshot could not be read
    | NothingStaged            // validation failed: there is nothing to publish
    | SnapshotFailed
    | StoppedEarly             // an error that is returned without restoring anything
    | WriteFailed              // a rule could not be written; the backups were restored
    | ReloadFailed             // the engine refused the rules; the old ones were written back
    | Unrecorded(unrecorded: Record)  // the change is complete, but recording it failed
    | Released(record: Record)

  predicate Completed(o: Outcome) {
    o.Released? || o.Unrecorded?
  }

  function RecordOf(o: Outcome): Record
    requires Completed(o)
  {
    match o
    case Released(r) => r
    case Unrecorded(r) => r
  }

  /** Old snapshots are untouched, and a new one has a higher number than all of them. */
  ghost predicate SnapshotsGrow(before: map<nat, Tree>, after: map<nat, Tree>) {
    && (forall v :: v in before ==> v in after && after[v] == before[v])
    && (forall v, w :: v in after && v !in before && w in before ==> w < v)
  }

  /** Each completed release's snapshot is a good tree with the rules the ledger remembers. */
  ghost predicate LedgerOK(env: Env, snapshots: map<nat, Tree>, ledger: map<nat, set<Rule>>) {
    && (forall v :: v in snapshots ==> "" !in snapshots[v])
    && (forall v :: v in ledger ==>
                      v in snapshots && GoodTree(env, snapshots[v]) && RulesOf(env, snapshots[v]) == ledger[v])
  }

  /** What the ledger says of a release is never changed. */
  ghost predicate LedgerGrows(before: map<nat, set<Rule>>, after: map<nat, set<Rule>>) {
    forall v :: v in before ==> v in after && after[v] == before[v]
  }

  class Manager {
    const env: Env
    const schedule: nat -> bool  // which operations fail
    var tick: nat
    var active: Tree
    var staged: map<string, Rule>  // by file name, which is the rule's ID
    var snapshots: map<nat, Tree>
    var records: map<nat, Record>
    ghost var ledger: map<nat, set<Rule>>
    ghost var faults: nat  // how many operations have failed
    ghost var history: seq<Entry>  // the steps of the runs so far

    ghost predicate Inv()
      reads this
    {
      EnvOK(env) && "" !in active && StagedOK(env, staged) && ValidNames(staged.Keys) && LedgerOK(env, snapshots, ledger)
    }

    constructor (env: Env, initial: Tree, schedule: nat -> bool)
      requires EnvOK(env) && "" !in initial
      ensures Inv() && active == initial && staged == map[] && snapshots == map[] && ledger == map[]
      ensures this.env == env
    {
      this.env, this.schedule, tick, faults := env, schedule, 0, 0;
      active, staged, snapshots, records, ledger, history := initial, map[], map[], map[], map[], [];
    }

    method Fault() returns (fail: bool)
      modifies this`tick, this`faults
      ensures faults == old(faults) + if fail then 1 else 0
    {
      fail := schedule(tick);
      tick := tick + 1;
      if fail { faults := faults + 1; }
    }

    /** Put a rule into the staged state. */
    method Stage(r: Rule) returns (ok: bool)
      requires Inv()
      modifies this`tick, this`faults, this`staged
      ensures Inv() && faults >= old(faults)
      ensures faults == old(faults) ==> (ok <==> Valid(env, r) && ValidRuleID(r.id))
      ensures !ok ==> staged == old(staged)
      ensures ok ==> Valid(env, r) && r.id in staged && Pub(env, staged[r.id]) == Pub(env, r) && staged[r.id].state == "staged"
                     && staged == old(staged)[r.id := staged[r.id]]
    {
      hide EnvOK, Pub, Normalize, LedgerOK;
      var n := Normalize(env, r.(state := STAGED, path := ""));
      NormalizeIgnoresState(env, r, STAGED, "");
      if n.Err? || !ValidRuleID(r.id) {
        return false;
      }
      var fail := Fault();
      if fail {
        return false;
      }
      PubIgnores(env, r, STAGED, "");
      staged := staged[r.id := n.value];
      ok := true;
    }

    /** activeRules: the rule files of the active tree, by ID. */
    method ActiveRules() returns (m: Option<View>)
      requires EnvOK(env) && "" !in active
      ensures m == None <==> !Readable(env, active)
      ensures m.Some? ==> ActiveView(env, active, m.value)
    {
      m := ReadTree(env, active);
    }

    /** stagedRules: the staged files, by ID. */
    method StagedRules() returns (m: View)
      requires EnvOK(env) && StagedOK(env, staged)
      ensures StagedView(env, staged, m)
    {
      hide Pub, Normalize, CustomPath;
      m := map[];
      var todo := staged.Keys;
      while todo != {}
        invariant todo <= staged.Keys && m.Keys == staged.Keys - todo
        invariant forall id :: id in m ==> FileRuleOK(env, m[id], id) && m[id].data == staged[id] && m[id].rule.path == CustomPath(id)
        decreases todo
      {
        var id :| id in todo;
        CustomNotEmpty(id);
        var f := ReadFile(env, staged[id], STAGED, CustomPath(id));
        m := m[id := f.value];
        todo := todo - {id};
      }
    }

    /** nextVersion: one more than the highest snapshot. */
    method NextVersion() returns (v: nat)
      ensures v > 0 && v !in snapshots
      ensures forall w :: w in snapshots ==> w < v
      ensures v == 1 || v - 1 in snapshots || v - 1 == 0
    {
      var max := 0;
      var todo := snapshots.Keys;
      while todo != {}
        invariant todo <= snapshots.Keys
        invariant forall w :: w in snapshots && w !in todo ==> w <= max
        invariant max == 0 || max in snapshots
        decreases todo
      {
        var w :| w in todo;
        if w > max { max := w; }
        todo := todo - {w};
      }
      v := max + 1;
    }

    /** writeSnapshot: the version's directory, then one file for each rule. */
    method WriteSnapshot(v: nat, rs: seq<Rule>) returns (ok: bool)
      requires v !in snapshots
      modifies this`tick, this`faults, this`snapshots
      ensures faults >= old(faults) && (faults == old(faults) <==> ok)
      ensures ok ==> snapshots == old(snapshots)[v := WriteAll(env, map[], rs)]
      ensures !ok ==> snapshots == old(snapshots) || (v in snapshots && snapshots == old(snapshots)[v := snapshots[v]])
      ensures v in snapshots ==> "" !in snapshots[v]
    {
      hide Pub, PathOf, WriteAll;
      var fail := Fault();
      if fail {
        return false;
      }
      snapshots := snapshots[v := map[]];
      WriteNone(env, map[]);
      for i := 0 to |rs|
        invariant v in snapshots && snapshots[v] == WriteAll(env, map[], rs[..i]) && "" !in snapshots[v]
        invariant snapshots == old(snapshots)[v := snapshots[v]] && faults == old(faults)
      {
        fail := Fault();
        if fail {
          return false;
        }
        WriteOneMore(env, map[], rs, i);
        PathNotEmpty(rs[i]);
        snapshots := snapshots[v := snapshots[v][PathOf(rs[i]) := Pub(env, rs[i])]];
      }
      assert rs[..|rs|] == rs;
      ok := true;
    }

    /** Prepublish: publishing is refused only when nothing is staged. */
    method Prepublish(rs: seq<Rule>, m: View) returns (ok: bool)
      requires EnvOK(env) && StagedView(env, staged, m) && FutureList(env, active, staged, rs)
      requires AllNormal(env, rs)
      ensures ok <==> staged != map[]
    {
      hide Pub, AllNormal, FutureEntry;
      if m == map[] {
        return false;
      }
      var critical := DetectCriticalConflict(env, rs);
      NoCriticalConflict(env, rs);
      ok := !critical;
      assert m.Keys != {};
    }

    /** Publish's loop over the staged rules: back up custom/<id>.yml, then write the rule there. */
    method WriteStagedRules(m: View) returns (stop: Option<Outcome>, backups: seq<Backup>, ghost ws: seq<Rule>)
      requires EnvOK(env) && StagedOK(env, staged) && StagedView(env, staged, m)
      modifies this`tick, this`faults, this`active
      ensures Written(env, old(active), staged, ws, backups, active)
      ensures stop == None ==> IDs(ws) == staged.Keys
      ensures stop in [None, Some(StoppedEarly), Some(WriteFailed)]
      ensures faults >= old(faults) && (faults == old(faults) && ValidNames(staged.Keys) ==> stop == None)
      ensures stop == None ==> faults == old(faults)
      ensures stop == Some(WriteFailed) ==> faults == old(faults) + 1
    {
      hide EnvOK, Pub, Normalize, CustomPath, Written, StagedView, StagedOK, IDs;
      stop, backups, ws := None, [], [];
      WrittenNone(env, active, staged);
      StagedKeys(env, staged, m);
      var todo := m.Keys;
      while todo != {}
        invariant todo <= m.Keys && IDs(ws) == m.Keys - todo
        invariant Written(env, old(active), staged, ws, backups, active) && faults == old(faults)
        decreases todo
      {
        var id :| id in todo;
        if !ValidRuleID(id) {
          return Some(StoppedEarly), backups, ws;
        }
        var p := CustomPath(id);
        var fail := Fault();
        if fail {
          return Some(StoppedEarly), backups, ws;
        }
        WrittenBackup(env, old(active), staged, ws, backups, active, id);
        backups := backups + [Backup(p, Lookup(active, p))];
        fail := Fault();
        if fail {
          return Some(WriteFailed), backups, ws;
        }
        WrittenMore(env, old(active), staged, m, ws, backups, active, id);
        active := active[p := Pub(env, m[id].rule)];
        ws := ws + [m[id].rule.(state := PUBLISHED)];
        todo := todo - {id};
      }
    }

    /** restoreBackups: errors are ignored. */
    method RestoreBackups(backups: seq<Backup>)
      modifies this`tick, this`faults, this`active
      ensures faults >= old(faults)
      ensures faults == old(faults) ==> active == RestoreAll(old(active), backups)
      ensures PartlyPutBack(old(active), active, backups)
    {
      for i := 0 to |backups|
        invariant faults >= old(faults)
        invariant faults == old(faults) ==> RestoreAll(active, backups[i..]) == RestoreAll(old(active), backups)
        invariant PartlyPutBack(old(active), active, backups)
      {
        assert backups[i..][1..] == backups[i + 1..];
        var fail := Fault();
        if !fail {
          active := PutBack(active, backups[i]);
        }
      }
    }

    /** The staged files of the published rules go; errors are ignored. */
    method DropStaged(m: View)
      modifies this`tick, this`faults, this`staged
      ensures forall id :: id in staged ==> id in old(staged) && staged[id] == old(staged)[id]
      ensures faults >= old(faults) && (faults == old(faults) ==> staged == old(staged) - m.Keys)
    {
      var todo := m.Keys;
      while todo != {}
        invariant todo <= m.Keys && faults >= old(faults)
        invariant forall id :: id in staged ==> id in old(staged) && staged[id] == old(staged)[id]
        invariant faults == old(faults) ==> staged == old(staged) - (m.Keys - todo)
        decreases todo
      {
        var id :| id in todo;
        var fail := Fault();
        if !fail {
          staged := staged - {id};
        }
        todo := todo - {id};
      }
    }

    /** The store's row and the metadata file. */
    method WriteRecord(r: Record) returns (o: Outcome)
      modifies this`tick, this`faults, this`records
      ensures Completed(o) && RecordOf(o) == r && (faults == old(faults) ==> o.Released?) && faults >= old(faults)
      ensures o.Released? ==> records == old(records)[r.version := r]
    {
      var fail := Fault();
      if fail {
        return Unrecorded(r);
      }
      fail := Fault();
      if fail {
        return Unrecorded(r);
      }
      records := records[r.version := r];
      o := Released(r);
    }

    /** The rules to publish, unless they cannot be read or there are none. */
    method ReadFuture() returns (stop: Option<Outcome>, a: View, m: View, rs: seq<Rule>)
      requires EnvOK(env) && "" !in active && StagedOK(env, staged)
      ensures stop == if !Readable(env, active) then Some(Unreadable) else if staged == map[] then Some(NothingStaged) else None
      ensures stop == None ==> ActiveView(env, active, a) && StagedView(env, staged, m) && FutureList(env, active, staged, rs)
                               && |rs| == |a.Keys + m.Keys|
    {
      hide EnvOK, StagedOK, Readable, ActiveView, StagedView, FutureList, AllNormal;
      stop, a, m, rs := None, map[], map[], [];
      var read := ActiveRules();
      if read == None {
        return Some(Unreadable), a, m, rs;
      }
      a := read.value;
      m := StagedRules();
      rs := FutureRules(env, active, staged, a, m);
      var ok := Prepublish(rs, m);
      if !ok {
        stop := Some(NothingStaged);
      }
    }

    /** The record of a publish, under the next version. */
    method PublishRecord(a: View, m: View, rs: seq<Rule>) returns (r: Record)
      requires ActiveView(env, active, a) && StagedView(env, staged, m) && |rs| == |a.Keys + m.Keys|
      ensures r.version !in snapshots && forall w :: w in snapshots ==> w < r.version
      ensures CountsAdd(r, active, staged)
    {
      hide EnvOK, ActiveView, StagedView, CountsAdd, OpCount, ItemsFor, Sorted;
      var v := NextVersion();
      var items := ReleaseItems(a, m);
      PublishOps(a, m, items);
      var added := CountOps(items, Add);
      var updated := CountOps(items, Update);
      var removed := CountOps(items, Remove);
      PublishCounts(env, active, staged, a, m, |rs|, v);
      r := Record(v, |rs|, added, updated, removed);
    }

    /** Publish's first half: read, validate, choose a version and write its snapshot. */
    method Prepare() returns (stop: Option<Outcome>, m: View, record: Record, ghost rs: seq<Rule>)
      requires Inv()
      modifies this`tick, this`faults, this`snapshots
      ensures SnapshotsGrow(old(snapshots), snapshots) && LedgerOK(env, snapshots, ledger)
      ensures stop in [None, Some(Unreadable), Some(NothingStaged), Some(SnapshotFailed)]
      ensures stop == Some(Unreadable) <==> !Readable(env, active)
      ensures stop == Some(NothingStaged) <==> Readable(env, active) && staged == map[]
      ensures faults >= old(faults) && (faults == old(faults) && Readable(env, active) && staged != map[] ==> stop == None)
      ensures stop == None ==>
                && faults == old(faults) && StagedView(env, staged, m) && FutureList(env, active, staged, rs) && CountsAdd(record, active, staged)
                && (var v := record.version;
                    v !in old(snapshots) && v !in ledger && v in snapshots && snapshots[v] == WriteAll(env, map[], rs))
    {
      hide EnvOK, StagedOK, Readable, ActiveView, StagedView, FutureList, WriteAll, CountsAdd, LedgerOK;
      record := Record(0, 0, 0, 0, 0);
      SnapshotsUnchanged(snapshots);
      var a, list;
      stop, a, m, list := ReadFuture();
      rs := list;
      if stop != None {
        return;
      }
      record := PublishRecord(a, m, list);
      var ok := WriteSnapshot(record.version, list);
      SnapshotWritten(env, old(snapshots), snapshots, ledger, record.version);
      if !ok {
        stop := Some(SnapshotFailed);
      }
    }

    /** Publish's second half: write the rules and reload, or restore. */
    method Activate(m: View) returns (stop: Option<Outcome>, ghost ws: seq<Rule>, ghost backups: seq<Backup>)
      requires EnvOK(env) && StagedOK(env, staged) && StagedView(env, staged, m)
      modifies this`tick, this`faults, this`active
      ensures stop in [None, Some(StoppedEarly), Some(WriteFailed), Some(ReloadFailed)]
      ensures SafeToPublish(env, old(active), staged) ==> GoodTree(env, active)
      ensures "" !in old(active) ==> "" !in active
      ensures stop in [Some(WriteFailed), Some(ReloadFailed)] && faults == old(faults) + 1 ==> active == old(active)
      ensures stop == None ==> Written(env, old(active), staged, ws, backups, active) && IDs(ws) == staged.Keys
      ensures faults >= old(faults) && (faults == old(faults) && ValidNames(staged.Keys) ==> stop == None)
      ensures stop == None ==> faults == old(faults)
    {
      hide EnvOK, Pub, Valid, GoodTree, StagedOK, StagedView, Written, WriteAll, RestoreAll, IDs, PartlyPutBack, SafeToPublish, ValidNames;
      var bs: seq<Backup>;
      stop, bs, ws := WriteStagedRules(m);
      backups := bs;
      ghost var written := active;
      WrittenIsGood(env, old(active), staged, ws, backups, active);
      if stop == Some(StoppedEarly) {
        return;
      }
      if stop == None {
        var fail := Fault();
        if fail {
          stop := Some(ReloadFailed);
        }
      }
      if stop != None {
        ghost var before := faults;
        RestoreBackups(bs);
        RestoredIsGood(env, old(active), staged, ws, backups, written, active, faults == before);
      }
    }

    /** Publish all staged rules as a new release. Without faults it completes, and nothing is left
        staged.

        If a write or the reload fails and nothing else does, the active tree is exactly as it was;
        nothing but a completed release changes the staged rules. Under the naming discipline, a
        completed release makes the active rules, by ID, the old ones overridden by the staged ones,
        and its snapshot is the active tree as it would be written again. */
    method Publish() returns (o: Outcome)
      requires Inv()
      modifies this`tick, this`faults, this`active, this`staged, this`snapshots, this`records, this`ledger
      ensures Inv() && SnapshotsGrow(old(snapshots), snapshots) && LedgerGrows(old(ledger), ledger) && faults >= old(faults)
      ensures old(SafeToPublish(env, active, staged)) ==> GoodTree(env, active)
      ensures o == Unreadable <==> !old(Readable(env, active))
      ensures o == NothingStaged <==> old(Readable(env, active)) && old(staged) == map[]
      ensures faults == old(faults) && old(Readable(env, active)) && old(staged) != map[] ==> o.Released? && staged == map[]
      ensures !Completed(o) ==> staged == old(staged) && ledger == old(ledger)
      ensures o in [Unreadable, NothingStaged, SnapshotFailed] ==> active == old(active)
      ensures o in [WriteFailed, ReloadFailed] && faults == old(faults) + 1 ==> active == old(active)
      ensures Completed(o) ==> CountsAdd(RecordOf(o), old(active), old(staged))
      ensures Completed(o) ==> RecordOf(o).version !in old(snapshots) && RecordOf(o).version in snapshots
      ensures Completed(o) && old(CanPublish(env, active, staged)) ==>
                && GoodTree(env, active)
                && snapshots[RecordOf(o).version] == PubTree(env, active)
                && RulesOf(env, snapshots[RecordOf(o).version]) == RulesOf(env, active)
                && Merged(env, old(active), old(staged), active)
                && ledger == old(ledger)[RecordOf(o).version := RulesOf(env, active)]
    {
      hide EnvOK, Pub, Valid, GoodTree, PubTree, RulesOf, Merged, FutureList, StagedView, StagedOK, CanPublish, SafeToPublish,
           Readable, WriteAll, CountsAdd, LedgerOK, SnapshotsGrow, LedgerGrows, ValidNames;
      LedgerUnchanged(ledger);
      SafeIsGood(env, active, staged);
      var stop, m, record, rs := Prepare();
      if stop != None {
        return stop.value;
      }
      o := PublishPrepared(m, record, rs);
    }

    /** A publish whose snapshot has been written. */
    method PublishPrepared(m: View, record: Record, ghost rs: seq<Rule>) returns (o: Outcome)
      requires Inv() && StagedView(env, staged, m) && FutureList(env, active, staged, rs)
      requires record.version !in ledger && record.version in snapshots && snapshots[record.version] == WriteAll(env, map[], rs)
      modifies this`tick, this`faults, this`active, this`staged, this`records, this`ledger
      ensures Inv() && LedgerGrows(old(ledger), ledger) && faults >= old(faults)
      ensures if Completed(o) then RecordOf(o) == record else o in [StoppedEarly, WriteFailed, ReloadFailed]
      ensures old(SafeToPublish(env, active, staged)) ==> GoodTree(env, active)
      ensures faults == old(faults) ==> o.Released? && staged == map[]
      ensures !Completed(o) ==> staged == old(staged) && ledger == old(ledger)
      ensures o in [WriteFailed, ReloadFailed] && faults == old(faults) + 1 ==> active == old(active)
      ensures Completed(o) && old(CanPublish(env, active, staged)) ==>
                && GoodTree(env, active)
                && snapshots[record.version] == PubTree(env, active)
                && RulesOf(env, snapshots[record.version]) == RulesOf(env, active)
                && Merged(env, old(active), old(staged), active)
                && ledger == old(ledger)[record.version := RulesOf(env, active)]
    {
      hide EnvOK, Pub, Valid, GoodTree, PubTree, RulesOf, Merged, Written, FutureList, StagedView, StagedOK, CanPublish, SafeToPublish,
           WriteAll, IDs, LedgerOK, LedgerGrows, ValidNames;
      LedgerUnchanged(ledger);
      var stop, ws, backups := Activate(m);
      if stop != None {
        return stop.value;
      }
      o := FinishPublish(m, record, old(active), ws, backups, rs);
    }

    /** The end of a publish: the staged files go, and the record is written. */
    method FinishPublish(m: View, record: Record, ghost t: Tree, ghost ws: seq<Rule>, ghost backups: seq<Backup>, ghost rs: seq<Rule>)
      returns (o: Outcome)
      requires EnvOK(env) && StagedOK(env, staged) && ValidNames(staged.Keys) && LedgerOK(env, snapshots, ledger)
      requires record.version !in ledger && record.version in snapshots && snapshots[record.version] == WriteAll(env, map[], rs)
      requires Written(env, t, staged, ws, backups, active) && IDs(ws) == staged.Keys
      requires FutureList(env, t, staged, rs) && StagedView(env, staged, m)
      modifies this`tick, this`faults, this`staged, this`records, this`ledger
      ensures StagedOK(env, staged) && ValidNames(staged.Keys) && LedgerOK(env, snapshots, ledger) && LedgerGrows(old(ledger), ledger)
      ensures Completed(o) && RecordOf(o) == record
      ensures faults >= old(faults) && (faults == old(faults) ==> o.Released? && staged == map[])
      ensures CanPublish(env, t, old(staged)) ==>
                && GoodTree(env, active)
                && snapshots[record.version] == PubTree(env, active)
                && RulesOf(env, snapshots[record.version]) == RulesOf(env, active)
                && Merged(env, t, old(staged), active)
                && ledger == old(ledger)[record.version := RulesOf(env, active)]
    {
      hide EnvOK, GoodTree, PubTree, RulesOf, Merged, Written, FutureList, StagedView, StagedOK, WriteAll, IDs, LedgerOK,
           LedgerGrows, ValidNames, CanPublish;
      LedgerUnchanged(ledger);
      if CanPublish(env, t, staged) {
        PublishedAll(env, t, staged, ws, backups, active, rs);
        ledger := ledger[record.version := RulesOf(env, active)];
        LedgerExtended(env, snapshots, old(ledger), record.version, active);
      }
      StagedKeys(env, staged, m);
      DropStaged(m);
      StagedShrinks(env, old(staged), staged);
      o := WriteRecord(record);
    }

    /** Remove the active files that the target does not have. */
    method RemoveOthers(a: View, target: Tree) returns (ok: bool)
      modifies this`tick, this`faults, this`active
      ensures forall p :: p in active ==> p in old(active) && active[p] == old(active)[p]
      ensures ok ==> forall id :: id in a ==> a[id].rel in target || a[id].rel !in active
      ensures faults >= old(faults) && (faults == old(faults) <==> ok)
    {
      var todo := a.Keys;
      while todo != {}
        invariant todo <= a.Keys && faults == old(faults)
        invariant forall p :: p in active ==> p in old(active) && active[p] == old(active)[p]
        invariant forall id :: id in a && id !in todo ==> a[id].rel in target || a[id].rel !in active
        decreases todo
      {
        var id :| id in todo;
        if a[id].rel !in target {
          var fail := Fault();
          if fail {
            return false;
          }
          active := active - {a[id].rel};
        }
        todo := todo - {id};
      }
      ok := true;
    }

    /** Write the target's files as they are. */
    method WriteFiles(target: Tree) returns (ok: bool)
      modifies this`tick, this`faults, this`active
      ensures forall p :: p in active ==> p in target || (p in old(active) && active[p] == old(active)[p])
      ensures ok ==> forall p :: p in target ==> p in active && active[p] == target[p]
      ensures faults >= old(faults) && (faults == old(faults) <==> ok)
    {
      var todo := target.Keys;
      while todo != {}
        invariant todo <= target.Keys && faults == old(faults)
        invariant forall p :: p in active ==> p in target || (p in old(active) && active[p] == old(active)[p])
        invariant forall p :: p in target && p !in todo ==> p in active && active[p] == target[p]
        decreases todo
      {
        var p :| p in todo;
        var fail := Fault();
        if fail {
          return false;
        }
        active := active[p := target[p]];
        todo := todo - {p};
      }
      ok := true;
    }

    /** After a failed reload: write the old rules back over what is there, ignoring errors. */
    method WriteBack(a: View, ghost was: Tree)
      requires forall id :: id in a ==> a[id].rel in was && a[id].data == was[a[id].rel]
      modifies this`tick, this`faults, this`active
      ensures "" !in was && "" !in old(active) ==> "" !in active
      ensures faults >= old(faults)
      ensures faults == old(faults) && (forall p :: p in was ==> was[p].id in a && a[was[p].id].rel == p) ==>
                active == old(active) + was
    {
      hide PutOver, AllPut;
      var todo := a.Keys;
      NothingPut(active, was, a);
      while todo != {}
        invariant todo <= a.Keys && faults >= old(faults) && PutOver(active, old(active), was)
        invariant faults == old(faults) ==> AllPut(active, a, todo)
        decreases todo
      {
        var id :| id in todo;
        var fail := Fault();
        if !fail {
          OnePut(active, old(active), was, a, todo, id);
          active := active[a[id].rel := a[id].data];
        }
        todo := todo - {id};
      }
      EverythingPut(active, old(active), was, a);
    }

    /** The files of a snapshot, by ID, and as rules without a path. */
    method ReadSnapshot(t: Tree) returns (r: Option<(View, seq<Rule>)>)
      requires EnvOK(env) && "" !in t
      ensures r == None <==> !Readable(env, t)
      ensures r.Some? ==> ActiveView(env, t, r.value.0) && SnapshotList(env, t, r.value.1)
    {
      hide EnvOK, Pub, Normalize, Valid, ActiveView, SnapshotList, Readable;
      var m := ReadTree(env, t);
      if m == None {
        return None;
      }
      var rs := RulesWithoutPath(env, t);
      r := Some((m.value, rs));
    }

    /** Make a snapshot's rules active again, and cut a new release from them. Without faults it
        completes.

        From a tree whose rule IDs are unique, a rollback whose reload succeeds leaves exactly the
        snapshot's files; for a completed release of the ledger that means exactly its rules, and a new
        snapshot, if it is completed, holds the same rules. If only the reload fails, the tree is the
        old one on top of the snapshot's: the old one exactly if the snapshot has no other files. */
    method RollbackRelease(version: nat) returns (o: Outcome)
      requires Inv()
      modifies this`tick, this`faults, this`active, this`snapshots, this`records, this`ledger
      ensures Inv() && SnapshotsGrow(old(snapshots), snapshots) && LedgerGrows(old(ledger), ledger) && faults >= old(faults)
      ensures o == Unreadable <==>
              version !in old(snapshots) || !Readable(env, old(snapshots)[version]) || !old(Readable(env, active))
      ensures o == Unreadable ==> active == old(active) && snapshots == old(snapshots)
      ensures faults == old(faults) && o != Unreadable ==> o.Released?
      ensures o == ReloadFailed && faults == old(faults) + 1 && old(UniqueIDs(active)) ==>
                && active == old(snapshots)[version] + old(active)
                && (active == old(active) <==> old(snapshots)[version].Keys <= old(active).Keys)
      ensures !Completed(o) ==> ledger == old(ledger)
      ensures Completed(o) ==> version in old(snapshots) && CountsBalanced(RecordOf(o), old(active), old(snapshots)[version])
      ensures Completed(o) ==> RecordOf(o).version !in old(snapshots) && RecordOf(o).version in snapshots
      ensures (Completed(o) || o == SnapshotFailed) && old(UniqueIDs(active)) ==>
                && active == old(snapshots)[version]
                && (version in old(ledger) ==> GoodTree(env, active) && RulesOf(env, active) == old(ledger)[version])
      ensures Completed(o) && version in old(ledger) ==>
                && GoodTree(env, snapshots[RecordOf(o).version])
                && RulesOf(env, snapshots[RecordOf(o).version]) == old(ledger)[version]
                && ledger == old(ledger)[RecordOf(o).version := old(ledger)[version]]
    {
      hide EnvOK, Pub, Valid, GoodTree, RulesOf, StagedOK, Readable, ActiveView, SnapshotList, WriteAll, CountsBalanced, LedgerOK,
           UniqueIDs, OpCount, TreeIDs, SnapshotsGrow, LedgerGrows, ValidNames;
      LedgerUnchanged(ledger);
      SnapshotsUnchanged(snapshots);
      if version in ledger {
        LedgerEntry(env, snapshots, ledger, version);
      }
      var read := ReadForRollback(version);
      if read == None {
        return Unreadable;
      }
      var b, rs, a := read.value.0, read.value.1, read.value.2;
      o := RollbackRead(version, a, b, rs);
    }

    /** A rollback that has read everything. */
    method RollbackRead(version: nat, a: View, b: View, rs: seq<Rule>) returns (o: Outcome)
      requires Inv() && version in snapshots && SnapshotList(env, snapshots[version], rs)
      requires ActiveView(env, active, a) && ActiveView(env, snapshots[version], b)
      modifies this`tick, this`faults, this`active, this`snapshots, this`records, this`ledger
      ensures Inv() && SnapshotsGrow(old(snapshots), snapshots) && LedgerGrows(old(ledger), ledger) && faults >= old(faults)
      ensures o in [StoppedEarly, ReloadFailed, SnapshotFailed] || Completed(o)
      ensures faults == old(faults) ==> o.Released?
      ensures o == ReloadFailed && faults == old(faults) + 1 && old(UniqueIDs(active)) ==>
                && active == old(snapshots)[version] + old(active)
                && (active == old(active) <==> old(snapshots)[version].Keys <= old(active).Keys)
      ensures !Completed(o) ==> ledger == old(ledger)
      ensures Completed(o) ==> CountsBalanced(RecordOf(o), old(active), old(snapshots)[version])
      ensures Completed(o) ==> RecordOf(o).version !in old(snapshots) && RecordOf(o).version in snapshots
      ensures (Completed(o) || o == SnapshotFailed) && old(UniqueIDs(active)) ==> active == old(snapshots)[version]
      ensures Completed(o) && version in old(ledger) ==>
                && GoodTree(env, snapshots[RecordOf(o).version])
                && RulesOf(env, snapshots[RecordOf(o).version]) == old(ledger)[version]
                && ledger == old(ledger)[RecordOf(o).version := old(ledger)[version]]
    {
      hide EnvOK, Pub, Valid, GoodTree, RulesOf, StagedOK, ActiveView, SnapshotList, WriteAll, CountsBalanced, LedgerOK,
           UniqueIDs, OpCount, TreeIDs, SnapshotsGrow, LedgerGrows, ValidNames;
      LedgerUnchanged(ledger);
      SnapshotsUnchanged(snapshots);
      NamedSnapshots(env, snapshots, ledger, version);
      var target := snapshots[version];
      OldTreeBackIff(active, target);
      var stop := ReplaceTree(a, target);
      if stop != None {
        return stop.value;
      }
      var record := RollbackRecord(old(active), target, a, b);
      o := CutRelease(version, rs, record);
    }

    /** What a rollback reads before it changes anything: the snapshot, and the active rules. */
    method ReadForRollback(version: nat) returns (r: Option<(View, seq<Rule>, View)>)
      requires EnvOK(env) && "" !in active && LedgerOK(env, snapshots, ledger)
      ensures r == None <==>
              version !in snapshots || !Readable(env, snapshots[version]) || !Readable(env, active)
      ensures r.Some? ==> "" !in snapshots[version] && ActiveView(env, snapshots[version], r.value.0)
                          && SnapshotList(env, snapshots[version], r.value.1) && ActiveView(env, active, r.value.2)
    {
      hide EnvOK, Readable, ActiveView, SnapshotList;
      if version !in snapshots {
        return None;
      }
      var read := ReadSnapshot(snapshots[version]);
      if read == None {
        return None;
      }
      var a := ActiveRules();
      if a == None {
        return None;
      }
      r := Some((read.value.0, read.value.1, a.value));
    }

    /** The record of a rollback, under the next version. */
    method RollbackRecord(ghost before: Tree, target: Tree, a: View, b: View) returns (r: Record)
      requires ActiveView(env, before, a) && ActiveView(env, target, b)
      ensures CountsBalanced(r, before, target)
      ensures r.version !in snapshots && forall w :: w in snapshots ==> w < r.version
    {
      hide EnvOK, ActiveView, CountsBalanced, OpCount, ItemsFor, Sorted;
      var items := DiffReleaseItems(a, b);
      RollbackOps(a, b, items);
      var added := CountOps(items, Add);
      var updated := CountOps(items, Update);
      var removed := CountOps(items, Remove);
      var v := NextVersion();
      RollbackCounts(env, before, target, a, b, v, |target|, added, updated, removed);
      r := Record(v, |target|, added, updated, removed);
    }

    /** The end of a rollback: the new snapshot and its record. */
    method CutRelease(version: nat, rs: seq<Rule>, record: Record) returns (o: Outcome)
      requires EnvOK(env) && LedgerOK(env, snapshots, ledger)
      requires version in snapshots && SnapshotList(env, snapshots[version], rs)
      requires record.version !in snapshots && forall w :: w in snapshots ==> w < record.version
      modifies this`tick, this`faults, this`snapshots, this`records, this`ledger
      ensures SnapshotsGrow(old(snapshots), snapshots) && LedgerOK(env, snapshots, ledger)
      ensures o == SnapshotFailed || (Completed(o) && RecordOf(o) == record && record.version in snapshots)
      ensures faults >= old(faults) && (faults == old(faults) ==> o.Released?)
      ensures LedgerGrows(old(ledger), ledger)
      ensures !Completed(o) ==> ledger == old(ledger)
      ensures Completed(o) && version in old(ledger) ==>
                && GoodTree(env, old(snapshots)[version]) && RulesOf(env, old(snapshots)[version]) == old(ledger)[version]
                && GoodTree(env, snapshots[record.version])
                && RulesOf(env, snapshots[record.version]) == old(ledger)[version]
                && ledger == old(ledger)[record.version := old(ledger)[version]]
    {
      hide EnvOK, Pub, Valid, GoodTree, RulesOf, SnapshotList, WriteAll, LedgerOK, SnapshotsGrow;
      var v := record.version;
      var ok := WriteSnapshot(v, rs);
      SnapshotWritten(env, old(snapshots), snapshots, ledger, v);
      if !ok {
        return SnapshotFailed;
      }
      if version in ledger {
        RollbackSnapshot(env, old(snapshots)[version], rs);
        LedgerEntry(env, old(snapshots), ledger, version);
        LedgerCopied(env, snapshots, ledger, v, version);
        ledger := ledger[v := ledger[version]];
      }
      o := WriteRecord(record);
    }

    /** The file operations of a rollback and the reload. */
    method ReplaceTree(a: View, target: Tree) returns (stop: Option<Outcome>)
      requires ActiveView(env, active, a) && "" !in target && "" !in active
      modifies this`tick, this`faults, this`active
      ensures stop in [None, Some(StoppedEarly), Some(ReloadFailed)]
      ensures "" !in active
      ensures stop == None && UniqueIDs(old(active)) ==> active == target
      ensures stop == Some(ReloadFailed) && faults == old(faults) + 1 && UniqueIDs(old(active)) ==> active == target + old(active)
      ensures faults >= old(faults) && (faults == old(faults) <==> stop == None)
    {
      hide EnvOK, ActiveView, UniqueIDs;
      ViewPaths(env, active, a);
      var ok := RemoveOthers(a, target);
      if !ok {
        return Some(StoppedEarly);
      }
      ghost var kept := active;
      ok := WriteFiles(target);
      if !ok {
        return Some(StoppedEarly);
      }
      if UniqueIDs(old(active)) {
        ReplacedExactly(old(active), kept, active, target, a);
      }
      var fail := Fault();
      if fail {
        WriteBack(a, old(active));
        return Some(ReloadFailed);
      }
      stop := None;
    }

    ghost function Now(): State
      reads this
    {
      State(active, staged, snapshots)
    }
  }

  /** Files of was have been written over before. */
  ghost predicate PutOver(now: Tree, before: Tree, was: Tree) {
    && (forall p :: p in before ==> p in now)
    && (forall p :: p in now ==> (p in before && now[p] == before[p]) || (p in was && now[p] == was[p]))
  }

  ghost predicate AllPut(now: Tree, a: View, todo: set<string>) {
    forall id :: id in a && id !in todo ==> a[id].rel in now && now[a[id].rel] == a[id].data
  }

  lemma NothingPut(before: Tree, was: Tree, a: View)
    ensures PutOver(before, before, was) && AllPut(before, a, a.Keys)
  {
  }

  lemma OnePut(now: Tree, before: Tree, was: Tree, a: View, todo: set<string>, id: string)
    requires forall i :: i in a ==> a[i].rel in was && a[i].data == was[a[i].rel]
    requires PutOver(now, before, was) && id in a
    ensures PutOver(now[a[id].rel := a[id].data], before, was)
    ensures AllPut(now, a, todo) ==> AllPut(now[a[id].rel := a[id].data], a, todo - {id})
  {
  }

  lemma EverythingPut(now: Tree, before: Tree, was: Tree, a: View)
    requires forall i :: i in a ==> a[i].rel in was && a[i].data == was[a[i].rel]
    requires PutOver(now, before, was)
    ensures "" !in was && "" !in before ==> "" !in now
    ensures AllPut(now, a, {}) && (forall p :: p in was ==> was[p].id in a && a[was[p].id].rel == p) ==> now == before + was
  {
    if AllPut(now, a, {}) && (forall p :: p in was ==> was[p].id in a && a[was[p].id].rel == p) {
      forall p | p in was ensures p in now && now[p] == was[p] {
        assert a[was[p].id].rel == p;
      }
    }
  }

  /** Writing the old files back does not remove the files that only the target has. */
  lemma OldTreeBackIff(before: Tree, target: Tree)
    ensures target + before == before <==> target.Keys <= before.Keys
  {
    assert (target + before).Keys == target.Keys + before.Keys;
  }

  // ---------- Runs ----------

  datatype Action = StageRule(r: Rule) | PublishAll | RollbackTo(version: nat)

  datatype State = State(active: Tree, staged: map<string, Rule>, snapshots: map<nat, Tree>)

  /** What a step did: the outcome is None for staging. */
  datatype Entry = Entry(action: Action, outcome: Option<Outcome>, before: State, after: State)

  /** A step that cannot break the tree: a publish writes nothing, finds what it overwrites at home, or
      completes over rules that it covers; a rollback reads nothing, or puts a good snapshot in place. */
  ghost predicate Orderly(env: Env, e: Entry) {
    match e.action
    case StageRule(_) => true
    case PublishAll =>
      || e.outcome in [Some(Unreadable), Some(NothingStaged), Some(SnapshotFailed)]
      || AtHome(e.before.active, e.before.staged.Keys)
      || (e.outcome.Some? && Completed(e.outcome.value) && Covered(e.before.active, e.before.staged.Keys))
    case RollbackTo(v) =>
      || e.outcome == Some(Unreadable)
      || (e.outcome.Some? && (Completed(e.outcome.value) || e.outcome.value == SnapshotFailed)
          && v in e.before.snapshots && GoodTree(env, e.before.snapshots[v]))
  }

  method PublishStep(m: Manager) returns (o: Outcome)
    requires m.Inv()
    modifies m`tick, m`faults, m`active, m`staged, m`snapshots, m`records, m`ledger
    ensures m.Inv() && SnapshotsGrow(old(m.snapshots), m.snapshots) && LedgerGrows(old(m.ledger), m.ledger) && m.faults >= old(m.faults)
    ensures m.faults == old(m.faults) ==> o in [Unreadable, NothingStaged] || o.Released?
    ensures Orderly(m.env, Entry(PublishAll, Some(o), old(m.Now()), m.Now())) && old(GoodTree(m.env, m.active)) ==> GoodTree(m.env, m.active)
  {
    hide EnvOK, GoodTree, RulesOf, CountsAdd, Merged, SnapshotsGrow, PubTree, LedgerOK, StagedOK, Readable, Orderly, SafeToPublish, CanPublish,
         LedgerGrows, ValidNames;
    ghost var before := m.Now();
    o := m.Publish();
    PublishKeepsGood(m.env, Entry(PublishAll, Some(o), before, m.Now()));
  }

  method RollbackStep(m: Manager, v: nat) returns (o: Outcome)
    requires m.Inv()
    modifies m`tick, m`faults, m`active, m`snapshots, m`records, m`ledger
    ensures m.Inv() && SnapshotsGrow(old(m.snapshots), m.snapshots) && LedgerGrows(old(m.ledger), m.ledger) && m.faults >= old(m.faults)
    ensures m.faults == old(m.faults) ==> o == Unreadable || o.Released?
    ensures Orderly(m.env, Entry(RollbackTo(v), Some(o), old(m.Now()), m.Now())) && old(GoodTree(m.env, m.active)) ==> GoodTree(m.env, m.active)
  {
    hide EnvOK, GoodTree, RulesOf, CountsBalanced, SnapshotsGrow, LedgerOK, StagedOK, Readable, Orderly, UniqueIDs, LedgerGrows, ValidNames;
    ghost var before := m.Now();
    o := m.RollbackRelease(v);
    RollbackKeepsGood(m.env, Entry(RollbackTo(v), Some(o), before, m.Now()));
  }

  /** One step of a run, entered in the history. */
  method Step(m: Manager, a: Action) returns (o: Option<Outcome>)
    requires m.Inv()
    modifies m
    ensures m.Inv() && SnapshotsGrow(old(m.snapshots), m.snapshots) && LedgerGrows(old(m.ledger), m.ledger)
    ensures m.history == old(m.history) + [Entry(a, o, old(m.Now()), m.Now())] && m.faults >= old(m.faults)
    ensures o == None <==> a.StageRule?
    ensures m.faults == old(m.faults) && a.RollbackTo? ==> o == Some(Unreadable) || o.value.Released?
    ensures m.faults == old(m.faults) && a.PublishAll? ==> o in [Some(Unreadable), Some(NothingStaged)] || o.value.Released?
    ensures Orderly(m.env, Entry(a, o, old(m.Now()), m.Now())) && old(GoodTree(m.env, m.active)) ==> GoodTree(m.env, m.active)
  {
    hide EnvOK, Pub, GoodTree, StagedOK, SnapshotsGrow, LedgerOK, Orderly, LedgerGrows, ValidNames, Valid;
    ghost var before := m.Now();
    o := None;
    SnapshotsUnchanged(m.snapshots);
    LedgerUnchanged(m.ledger);
    match a {
      case StageRule(r) =>
        var ok := m.Stage(r);
      case PublishAll =>
        var outcome := PublishStep(m);
        o := Some(outcome);
      case RollbackTo(v) =>
        var outcome := RollbackStep(m, v);
        o := Some(outcome);
    }
    m.history := m.history + [Entry(a, o, before, m.Now())];
  }

  lemma PublishKeepsGood(env: Env, e: Entry)
    requires e.action.PublishAll? && e.outcome.Some?
    requires SafeToPublish(env, e.before.active, e.before.staged) ==> GoodTree(env, e.after.active)
    requires e.outcome.value in [Unreadable, NothingStaged, SnapshotFailed] ==> e.after.active == e.before.active
    requires Completed(e.outcome.value) && CanPublish(env, e.before.active, e.before.staged) ==> GoodTree(env, e.after.active)
    ensures Orderly(env, e) && GoodTree(env, e.before.active) ==> GoodTree(env, e.after.active)
  {
    hide GoodTree, AtHome, Covered;
  }

  lemma RollbackKeepsGood(env: Env, e: Entry)
    requires e.action.RollbackTo? && e.outcome.Some?
    requires e.outcome == Some(Unreadable) ==> e.after.active == e.before.active
    requires (Completed(e.outcome.value) || e.outcome.value == SnapshotFailed) && UniqueIDs(e.before.active) ==>
               e.action.version in e.before.snapshots && e.after.active == e.before.snapshots[e.action.version]
    ensures Orderly(env, e) && GoodTree(env, e.before.active) ==> GoodTree(env, e.after.active)
  {
    hide Readable;
  }

  /** The entries are those of the run's actions in order, each starting where the one before ended. */
  ghost predicate EntriesOf(entries: seq<Entry>, run: seq<Action>, start: State) {
    && |entries| == |run|
    && (forall i :: 0 <= i < |run| ==> entries[i].action == run[i])
    && (forall i :: 0 <= i < |run| ==> entries[i].before == StateAt(entries, start, i))
  }

  /** The state after the first i entries. */
  ghost function StateAt(entries: seq<Entry>, start: State, i: nat): State
    requires i <= |entries|
  {
    if i == 0 then start else entries[i - 1].after
  }

  ghost predicate AllOrderly(env: Env, entries: seq<Entry>) {
    forall i :: 0 <= i < |entries| ==> Orderly(env, entries[i])
  }

  lemma EntriesMore(entries: seq<Entry>, run: seq<Action>, start: State, e: Entry)
    requires EntriesOf(entries, run, start) && e.before == StateAt(entries, start, |entries|)
    ensures EntriesOf(entries + [e], run + [e.action], start)
  {
    hide StateAt;
    var more := entries + [e];
    forall i | 0 <= i < |more| ensures more[i].before == StateAt(more, start, i) {
      StateBefore(entries, start, i, e);
      if i < |entries| {
        assert more[i] == entries[i];
      }
    }
  }

  lemma StateBefore(entries: seq<Entry>, start: State, i: nat, e: Entry)
    requires i <= |entries|
    ensures StateAt(entries + [e], start, i) == StateAt(entries, start, i)
  {
  }

  lemma OrderlyMore(env: Env, entries: seq<Entry>, e: Entry)
    ensures AllOrderly(env, entries + [e]) <==> AllOrderly(env, entries) && Orderly(env, e)
  {
    hide Orderly;
    assert (entries + [e])[|entries|] == e;
    assert forall i :: 0 <= i < |entries| ==> (entries + [e])[i] == entries[i];
  }

  /** The history of a run from start to now, and that the tree stays good if every step is orderly. */
  ghost predicate RunFrom(env: Env, start: State, entries: seq<Entry>, run: seq<Action>, os: seq<Option<Outcome>>, now: State) {
    && EntriesOf(entries, run, start) && |os| == |run|
    && (forall i :: 0 <= i < |run| ==> entries[i].outcome == os[i])
    && now == StateAt(entries, start, |entries|)
    && (AllOrderly(env, entries) && GoodTree(env, start.active) ==> GoodTree(env, now.active))
  }

  lemma RunMore(env: Env, start: State, entries: seq<Entry>, run: seq<Action>, os: seq<Option<Outcome>>, now: State, e: Entry)
    requires RunFrom(env, start, entries, run, os, now) && e.before == now
    requires Orderly(env, e) && GoodTree(env, now.active) ==> GoodTree(env, e.after.active)
    ensures RunFrom(env, start, entries + [e], run + [e.action], os + [e.outcome], e.after)
  {
    hide Orderly, GoodTree, AllOrderly;
    EntriesMore(entries, run, start, e);
    OrderlyMore(env, entries, e);
  }

  /** The steps of a run, whatever fails. */
  method Run(m: Manager, run: seq<Action>) returns (os: seq<Option<Outcome>>)
    requires m.Inv()
    modifies m
    ensures m.Inv() && SnapshotsGrow(old(m.snapshots), m.snapshots) && LedgerGrows(old(m.ledger), m.ledger)
    ensures m.faults >= old(m.faults) && old(m.history) <= m.history
    ensures RunFrom(m.env, old(m.Now()), m.history[|old(m.history)|..], run, os, m.Now())
  {
    hide EnvOK, GoodTree, RunFrom, SnapshotsGrow, LedgerGrows, StagedOK, LedgerOK, ValidNames, Orderly;
    os := [];
    ghost var start, past, entries := m.Now(), m.history, [];
    SnapshotsUnchanged(m.snapshots);
    LedgerUnchanged(m.ledger);
    NoSteps(m.env, start);
    for i := 0 to |run|
      invariant m.Inv() && SnapshotsGrow(old(m.snapshots), m.snapshots) && LedgerGrows(old(m.ledger), m.ledger)
      invariant m.faults >= old(m.faults) && m.history == past + entries
      invariant RunFrom(m.env, start, entries, run[..i], os, m.Now())
    {
      ghost var before, ledger, was := m.snapshots, m.ledger, m.Now();
      var o := Step(m, run[i]);
      ghost var e := Entry(run[i], o, was, m.Now());
      RunMore(m.env, start, entries, run[..i], os, was, e);
      assert run[..i + 1] == run[..i] + [run[i]];
      GrowTwice(old(m.snapshots), before, m.snapshots);
      LedgerGrowsTwice(old(m.ledger), ledger, m.ledger);
      entries := entries + [e];
      os := os + [o];
    }
    assert run[..|run|] == run;
    assert m.history[|past|..] == entries;
  }

  lemma LedgerGrowsTwice(a: map<nat, set<Rule>>, b: map<nat, set<Rule>>, c: map<nat, set<Rule>>)
    requires LedgerGrows(a, b) && LedgerGrows(b, c)
    ensures LedgerGrows(a, c)
  {
  }

  lemma NoSteps(env: Env, start: State)
    ensures RunFrom(env, start, [], [], [], start)
  {
  }

  /** Any number of stagings, publishes and rollbacks, each entered in the history with its outcome, and
      then a rollback to a release that was complete before. If every step was orderly, the rollback finds
      everything readable, and without faults it completes. Once its files and the reload are done, the
      active rules are again what they were right after that release; and so are those of the snapshot
      that it cuts. */
  method RunThenRollback(m: Manager, run: seq<Action>, version: nat) returns (os: seq<Option<Outcome>>, o: Outcome)
    requires m.Inv() && GoodTree(m.env, m.active) && version in m.ledger
    modifies m
    ensures m.Inv() && SnapshotsGrow(old(m.snapshots), m.snapshots) && LedgerGrows(old(m.ledger), m.ledger)
    ensures old(m.history) <= m.history
    ensures var entries := m.history[|old(m.history)|..];
            && EntriesOf(entries, run, old(m.Now())) && |os| == |run|
            && (forall i :: 0 <= i < |run| ==> entries[i].outcome == os[i])
            && (AllOrderly(m.env, entries) ==>
                  && o != Unreadable && (m.faults == old(m.faults) ==> o.Released?)
                  && (Completed(o) || o == SnapshotFailed ==>
                        GoodTree(m.env, m.active) && RulesOf(m.env, m.active) == old(m.ledger)[version])
                  && (Completed(o) ==>
                        && RecordOf(o).version in m.snapshots
                        && RulesOf(m.env, m.snapshots[RecordOf(o).version]) == old(m.ledger)[version]))
  {
    hide EnvOK, GoodTree, RulesOf, StagedOK, LedgerOK, SnapshotsGrow, AllOrderly, EntriesOf, ValidNames;
    os := Run(m, run);
    ghost var before := m.snapshots;
    o := LastRollback(m, version);
    GrowTwice(old(m.snapshots), before, m.snapshots);
  }

  /** A rollback to a completed release, from a good tree. */
  method LastRollback(m: Manager, version: nat) returns (o: Outcome)
    requires m.Inv() && version in m.ledger
    modifies m`tick, m`faults, m`active, m`snapshots, m`records, m`ledger
    ensures m.Inv() && SnapshotsGrow(old(m.snapshots), m.snapshots) && LedgerGrows(old(m.ledger), m.ledger) && m.faults >= old(m.faults)
    ensures old(GoodTree(m.env, m.active)) ==>
              && o != Unreadable && (m.faults == old(m.faults) ==> o.Released?)
              && (Completed(o) || o == SnapshotFailed ==>
                    GoodTree(m.env, m.active) && RulesOf(m.env, m.active) == old(m.ledger)[version])
    ensures Completed(o) ==>
              && RecordOf(o).version in m.snapshots
              && RulesOf(m.env, m.snapshots[RecordOf(o).version]) == old(m.ledger)[version]
  {
    hide EnvOK, GoodTree, RulesOf, StagedOK, Readable, CountsBalanced, LedgerOK, SnapshotsGrow, LedgerGrows, UniqueIDs;
    GoodIsUnique(m.env, m.active);
    LedgerEntry(m.env, m.snapshots, m.ledger, version);
    GoodIsUnique(m.env, m.snapshots[version]);
    o := m.RollbackRelease(version);
  }

  lemma GoodIsUnique(env: Env, t: Tree)
    ensures GoodTree(env, t) ==> UniqueIDs(t) && Readable(env, t)
  {
  }

  lemma GrowTwice(a: map<nat, Tree>, b: map<nat, Tree>, c: map<nat, Tree>)
    requires SnapshotsGrow(a, b) && SnapshotsGrow(b, c)
    ensures SnapshotsGrow(a, c)
  {
  }

  lemma ReplacedExactly(before: Tree, kept: Tree, now: Tree, target: Tree, a: View)
    requires forall p :: p in before ==> before[p].id in a && a[before[p].id].rel == p
    requires forall p :: p in kept ==> p in before && kept[p] == before[p]
    requires forall id :: id in a ==> a[id].rel in target || a[id].rel !in kept
    requires forall p :: p in now ==> p in target || (p in kept && now[p] == kept[p])
    requires forall p :: p in target ==> p in now && now[p] == target[p]
    ensures now == target
  {
  }

  lemma ViewPaths(env: Env, t: Tree, a: View)
    requires ActiveView(env, t, a) && "" !in t
    ensures forall id :: id in a ==> a[id].rel in t && a[id].data == t[a[id].rel]
    ensures UniqueIDs(t) ==> forall p :: p in t ==> t[p].id in a && a[t[p].id].rel == p
  {
    forall id | id in a ensures a[id].rel in t && t[a[id].rel].id == id {
      assert FileRuleOK(env, a[id], id);
    }
  }

  /** r is the rule of one of t's files, without its path. */
  ghost predicate FromTree(env: Env, t: Tree, r: Rule) {
    r.path == "" && exists p :: p in t && t[p].id == r.id && Pub(env, r) == Pub(env, t[p])
  }

  ghost predicate SnapshotList(env: Env, t: Tree, rs: seq<Rule>) {
    && (forall i :: 0 <= i < |rs| ==> FromTree(env, t, rs[i]))
    && (forall p :: p in t ==> t[p].id in IDs(rs))
  }

  method RulesWithoutPath(env: Env, t: Tree) returns (rs: seq<Rule>)
    requires EnvOK(env) && Readable(env, t) && "" !in t
    ensures SnapshotList(env, t, rs)
  {
    hide Pub, Normalize, Valid, FromTree, IDs;
    rs := [];
    var todo := t.Keys;
    while todo != {}
      invariant todo <= t.Keys
      invariant forall i :: 0 <= i < |rs| ==> FromTree(env, t, rs[i])
      invariant forall p :: p in t && p !in todo ==> t[p].id in IDs(rs)
      decreases todo
    {
      var p :| p in todo;
      var f := ReadFile(env, t[p], PUBLISHED, p);
      var r := f.value.rule.(path := "");
      ReadIsFromTree(env, t, p, f.value);
      MoreIDs(rs, r);
      rs := rs + [r];
      todo := todo - {p};
    }
  }

  lemma ReadIsFromTree(env: Env, t: Tree, p: Path, f: FileRule)
    requires EnvOK(env) && p in t && f.data == t[p] && FileRuleOK(env, f, t[p].id)
    ensures FromTree(env, t, f.rule.(path := ""))
  {
    hide Pub, Normalize;
    PubOfForm(env, f.rule, f.rule.state, "");
    assert Pub(env, f.rule.(path := "")) == Pub(env, t[p]);
  }

  lemma MoreIDs(rs: seq<Rule>, r: Rule)
    ensures IDs(rs + [r]) == IDs(rs) + {r.id}
  {
  }

  ghost function ByIDMap(t: Tree): map<string, Rule>
    requires UniqueIDs(t)
  {
    map p | p in t :: t[p].id := t[p]
  }

  lemma ByIDMapIsByID(t: Tree)
    requires UniqueIDs(t)
    ensures ByID(t, ByIDMap(t))
  {
  }

  lemma SnapshotListIsStagedList(env: Env, t: Tree, m: map<string, Rule>, rs: seq<Rule>)
    requires SnapshotList(env, t, rs) && ByID(t, m)
    ensures StagedList(env, m, rs) && IDs(rs) == m.Keys
  {
    hide Pub;
    forall i | 0 <= i < |rs| ensures StagedEntry(env, m, rs[i]) {
      assert FromTree(env, t, rs[i]);
      var p :| p in t && t[p].id == rs[i].id && Pub(env, rs[i]) == Pub(env, t[p]);
      assert m[t[p].id] == t[p];
    }
    StagedIDs(env, m, rs);
    forall id | id in m ensures id in IDs(rs) {
      var p :| p in t && t[p].id == id;
    }
  }

  /** The snapshot that a rollback cuts from a good tree: other files, the same rules. */
  lemma RollbackSnapshot(env: Env, t: Tree, rs: seq<Rule>)
    requires EnvOK(env) && SnapshotList(env, t, rs)
    ensures GoodTree(env, t) ==>
              GoodTree(env, WriteAll(env, map[], rs)) && RulesOf(env, WriteAll(env, map[], rs)) == RulesOf(env, t)
  {
    hide Pub, Valid, WriteAll, RulesOf, SnapshotList, ByIDMap, ByID, StagedList, IDs;
    if GoodTree(env, t) {
      ByIDMapIsByID(t);
      SnapshotListIsStagedList(env, t, ByIDMap(t), rs);
      FlattenedSameRules(env, t, ByIDMap(t), rs);
    }
  }

  lemma LedgerEntry(env: Env, snapshots: map<nat, Tree>, ledger: map<nat, set<Rule>>, v: nat)
    requires LedgerOK(env, snapshots, ledger) && v in ledger
    ensures v in snapshots && GoodTree(env, snapshots[v]) && RulesOf(env, snapshots[v]) == ledger[v]
  {
  }

  lemma LedgerCopied(env: Env, snapshots: map<nat, Tree>, ledger: map<nat, set<Rule>>, v: nat, from: nat)
    requires LedgerOK(env, snapshots, ledger) && from in ledger && v !in ledger
    requires v in snapshots && GoodTree(env, snapshots[v]) && RulesOf(env, snapshots[v]) == ledger[from]
    ensures LedgerOK(env, snapshots, ledger[v := ledger[from]]) && LedgerGrows(ledger, ledger[v := ledger[from]])
  {
    hide GoodTree, RulesOf;
  }

  /** The counts of a rollback: the rules before and after differ by what was added and removed. */
  ghost predicate CountsBalanced(r: Record, before: Tree, after: Tree) {
    && r.added == |TreeIDs(after) - TreeIDs(before)| && r.removed == |TreeIDs(before) - TreeIDs(after)|
    && |TreeIDs(after)| == |TreeIDs(before)| + r.added - r.removed
    && r.ruleCount == |after| && (UniqueIDs(after) ==> r.ruleCount == |TreeIDs(after)|)
    && (UniqueIDs(before) && UniqueIDs(after) ==> r.updated == |ChangedIDs(before, after)|)
  }

  /** The IDs that two trees have with different contents. */
  ghost function ChangedIDs(before: Tree, after: Tree): set<string> {
    set p, q | p in before && q in after && before[p].id == after[q].id && before[p] != after[q] :: before[p].id
  }

  lemma ChangedViews(env: Env, before: Tree, after: Tree, a: View, b: View)
    requires ActiveView(env, before, a) && ActiveView(env, after, b) && UniqueIDs(before) && UniqueIDs(after)
    ensures Changed(a, b) == ChangedIDs(before, after)
  {
    hide ActiveView, UniqueIDs;
    ViewData(env, before, a);
    ViewData(env, after, b);
    forall id ensures id in Changed(a, b) <==> id in ChangedIDs(before, after) {
      if id in Changed(a, b) {
        assert before[a[id].rel].id == after[b[id].rel].id;
      }
      if p, q :| p in before && q in after && before[p].id == after[q].id == id && before[p] != after[q] {
        assert a[id].data == before[p] && b[id].data == after[q];
      }
    }
  }

  lemma ViewData(env: Env, t: Tree, a: View)
    requires ActiveView(env, t, a) && UniqueIDs(t)
    ensures forall id :: id in a ==> a[id].rel in t && t[a[id].rel] == a[id].data && a[id].data.id == id
    ensures forall p :: p in t ==> t[p].id in a && a[t[p].id].data == t[p]
  {
    hide Pub, Normalize;
    forall p | p in t ensures t[p].id in a && a[t[p].id].data == t[p] {
      assert t[a[t[p].id].rel].id == t[p].id;
    }
  }

  lemma RollbackCounts(env: Env, before: Tree, after: Tree, a: View, b: View, v: nat, n: nat, added: nat, updated: nat, removed: nat)
    requires ActiveView(env, before, a) && ActiveView(env, after, b) && n == |after|
    requires added == |b.Keys - a.Keys| && removed == |a.Keys - b.Keys| && updated == |Changed(a, b)|
    ensures CountsBalanced(Record(v, n, added, updated, removed), before, after)
  {
    hide EnvOK, ActiveView, TreeIDs, UniqueIDs, Changed, ChangedIDs;
    ViewKeys(env, before, a);
    ViewKeys(env, after, b);
    if UniqueIDs(before) && UniqueIDs(after) {
      ChangedViews(env, before, after, a, b);
    }
    CountsBalance(a.Keys, b.Keys);
    if UniqueIDs(after) {
      CountTreeIDs(after);
    }
  }

  lemma {:induction false} CountTreeIDs(t: Tree)
    requires UniqueIDs(t)
    ensures |TreeIDs(t)| == |t|
    decreases |t|
  {
    if t != map[] {
      var p :| p in t;
      var rest := t - {p};
      assert t.Keys == rest.Keys + {p};
      CountTreeIDs(rest);
      TreeIDsWithout(t, p);
      hide TreeIDs, UniqueIDs;
    }
  }

  lemma TreeIDsWithout(t: Tree, p: Path)
    requires UniqueIDs(t) && p in t
    ensures UniqueIDs(t - {p}) && TreeIDs(t) == TreeIDs(t - {p}) + {t[p].id} && t[p].id !in TreeIDs(t - {p})
  {
    forall id | id in TreeIDs(t) ensures id in TreeIDs(t - {p}) + {t[p].id} {
      var q :| q in t && t[q].id == id;
      assert q == p || q in t - {p};
    }
  }

  ghost predicate ValidNames(ids: set<string>) {
    forall id :: id in ids ==> ValidRuleID(id)
  }

  /** The naming discipline, under which publishing merges by ID. */
  ghost predicate CanPublish(env: Env, t: Tree, staged: map<string, Rule>) {
    GoodTree(env, t) && Covered(t, staged.Keys)
  }

  /** The stronger one, under which a publish that stops half-way leaves a good tree. */
  ghost predicate SafeToPublish(env: Env, t: Tree, staged: map<string, Rule>) {
    GoodTree(env, t) && AtHome(t, staged.Keys)
  }

  lemma NamedSnapshots(env: Env, snapshots: map<nat, Tree>, ledger: map<nat, set<Rule>>, v: nat)
    requires LedgerOK(env, snapshots, ledger) && v in snapshots
    ensures "" !in snapshots[v]
  {
    hide GoodTree, RulesOf;
  }

  lemma SafeIsGood(env: Env, t: Tree, staged: map<string, Rule>)
    ensures SafeToPublish(env, t, staged) ==> GoodTree(env, t)
  {
  }

  lemma SnapshotsUnchanged(s: map<nat, Tree>)
    ensures SnapshotsGrow(s, s)
  {
  }

  lemma LedgerUnchanged(l: map<nat, set<Rule>>)
    ensures LedgerGrows(l, l)
  {
  }

  /** The IDs of a tree's rules. */
  ghost function TreeIDs(t: Tree): set<string> {
    set p | p in t :: t[p].id
  }

  /** The counts of a publish: every rule before, and each added one. */
  ghost predicate CountsAdd(r: Record, t: Tree, staged: map<string, Rule>) {
    && r.added == |staged.Keys - TreeIDs(t)| && r.updated == |staged.Keys * TreeIDs(t)| && r.removed == 0
    && r.ruleCount == |TreeIDs(t)| + r.added
  }

  lemma PublishCounts(env: Env, t: Tree, staged: map<string, Rule>, a: View, m: View, n: nat, v: nat)
    requires ActiveView(env, t, a) && StagedView(env, staged, m) && n == |a.Keys + m.Keys|
    ensures CountsAdd(Record(v, n, |m.Keys - a.Keys|, |m.Keys * a.Keys|, 0), t, staged)
  {
    hide FileRuleOK;
    ViewKeys(env, t, a);
    CountsBalance(a.Keys, m.Keys);
  }

  lemma ViewKeys(env: Env, t: Tree, a: View)
    requires ActiveView(env, t, a)
    ensures a.Keys == TreeIDs(t)
  {
  }

  ghost predicate PartlyPutBack(before: Tree, now: Tree, backups: seq<Backup>) {
    forall p :: Lookup(now, p) == Lookup(before, p)
                || exists i :: 0 <= i < |backups| && backups[i].path == p && backups[i].before == Lookup(now, p)
  }

  lemma SnapshotWritten(env: Env, before: map<nat, Tree>, after: map<nat, Tree>, ledger: map<nat, set<Rule>>, v: nat)
    requires LedgerOK(env, before, ledger) && v !in before && forall w :: w in before ==> w < v
    requires after == before || (v in after && after == before[v := after[v]] && "" !in after[v])
    ensures SnapshotsGrow(before, after) && LedgerOK(env, after, ledger) && v !in ledger
  {
    hide GoodTree, RulesOf;
  }

  lemma LedgerExtended(env: Env, snapshots: map<nat, Tree>, ledger: map<nat, set<Rule>>, v: nat, now: Tree)
    requires LedgerOK(env, snapshots, ledger) && v !in ledger
    requires v in snapshots && GoodTree(env, snapshots[v]) && RulesOf(env, snapshots[v]) == RulesOf(env, now)
    ensures LedgerOK(env, snapshots, ledger[v := RulesOf(env, now)]) && LedgerGrows(ledger, ledger[v := RulesOf(env, now)])
  {
    hide GoodTree, RulesOf;
  }

  lemma StagedShrinks(env: Env, before: map<string, Rule>, after: map<string, Rule>)
    requires StagedOK(env, before)
    requires forall id :: id in after ==> id in before && after[id] == before[id]
    ensures StagedOK(env, after) && (ValidNames(before.Keys) ==> ValidNames(after.Keys))
  {
  }

  lemma WrittenIsGood(env: Env, t: Tree, staged: map<string, Rule>, ws: seq<Rule>, backups: seq<Backup>, now: Tree)
    requires EnvOK(env) && StagedOK(env, staged) && Written(env, t, staged, ws, backups, now)
    ensures SafeToPublish(env, t, staged) ==> GoodTree(env, now)
    ensures "" !in t ==> "" !in now
  {
    hide GoodTree, Overlay, Pub, WriteAll;
    WriteStaged(env, t, staged, ws);
    if SafeToPublish(env, t, staged) {
      OverlayIsGood(env, t, staged, IDs(ws), now);
    }
    NoEmptyPath(env, t, staged, IDs(ws), now);
  }

  lemma NoEmptyPath(env: Env, t: Tree, staged: map<string, Rule>, ids: set<string>, now: Tree)
    requires ids <= staged.Keys && forall p :: Lookup(now, p) == Overlay(env, t, staged, ids, p)
    ensures "" !in t ==> "" !in now
  {
    assert Lookup(now, "") == Overlay(env, t, staged, ids, "");
  }

  /** After restoring, perhaps with failures, each path holds its old or its new content. */
  lemma PartlyRestored(env: Env, t: Tree, staged: map<string, Rule>, ws: seq<Rule>, backups: seq<Backup>,
                       written: Tree, now: Tree) returns (ids: set<string>)
    requires Written(env, t, staged, ws, backups, written) && PartlyPutBack(written, now, backups)
    ensures ids <= staged.Keys && forall p :: Lookup(now, p) == Overlay(env, t, staged, ids, p)
  {
    hide Pub, WriteAll, CustomPath, CustomID, IsCustom;
    WriteStaged(env, t, staged, ws);
    ids := set id | id in IDs(ws) && Lookup(now, CustomPath(id)) == Some(Pub(env, staged[id]));
    forall p ensures Lookup(now, p) == Overlay(env, t, staged, ids, p) {
      assert Lookup(written, p) == Overlay(env, t, staged, IDs(ws), p);
      if IsCustom(p) { CustomIDInverse(p); }
      if Lookup(now, p) != Lookup(written, p) {
        var i :| 0 <= i < |backups| && backups[i].path == p && backups[i].before == Lookup(now, p);
        assert Lookup(now, p) == Lookup(t, p);
      }
    }
  }

  lemma RestoredIsGood(env: Env, t: Tree, staged: map<string, Rule>, ws: seq<Rule>, backups: seq<Backup>,
                       written: Tree, now: Tree, clean: bool)
    requires EnvOK(env) && StagedOK(env, staged) && Written(env, t, staged, ws, backups, written)
    requires PartlyPutBack(written, now, backups) && (clean ==> now == RestoreAll(written, backups))
    ensures clean ==> now == t
    ensures SafeToPublish(env, t, staged) ==> GoodTree(env, now)
    ensures "" !in t ==> "" !in now
  {
    hide GoodTree, Overlay, Pub, PartlyPutBack;
    var ids := PartlyRestored(env, t, staged, ws, backups, written, now);
    if SafeToPublish(env, t, staged) {
      OverlayIsGood(env, t, staged, ids, now);
    }
    NoEmptyPath(env, t, staged, ids, now);
    RestoreUndoesWrites(env, t, ws, backups);
  }

  /** All staged rules have been written: what the snapshot and the tree are. */
  lemma PublishedAll(env: Env, t: Tree, staged: map<string, Rule>, ws: seq<Rule>, backups: seq<Backup>, now: Tree, rs: seq<Rule>)
    requires EnvOK(env) && StagedOK(env, staged) && Written(env, t, staged, ws, backups, now) && IDs(ws) == staged.Keys
    requires CanPublish(env, t, staged) && FutureList(env, t, staged, rs)
    ensures Merged(env, t, staged, now) && GoodTree(env, now)
    ensures var snap := WriteAll(env, map[], rs);
            snap == PubTree(env, now) && GoodTree(env, snap) && RulesOf(env, snap) == RulesOf(env, now)
  {
    hide Overlay, Pub, WriteAll, Covered, FutureList, Valid, Merged;
    WriteStaged(env, t, staged, ws);
    SnapshotIsPublishedTree(env, t, staged, now, rs);
    CoveredIsGood(env, t, staged, now);
    PubTreeSameRules(env, now);
    PubTreeIsGood(env, now);
    OverlayMerges(env, t, staged, now);
  }

  lemma PubTreeIsGood(env: Env, t: Tree)
    requires EnvOK(env) && GoodTree(env, t)
    ensures GoodTree(env, PubTree(env, t))
  {
    hide Pub, Valid;
    PubTreeSameRules(env, t);
    forall p | p in t ensures Pub(env, t[p]).id == t[p].id {
      PubFacts(env, t[p]);
    }
  }

  lemma IDsSnoc(rs: seq<Rule>, r: Rule)
    requires DistinctIDs(rs) && r.id !in IDs(rs)
    ensures IDs(rs + [r]) == IDs(rs) + {r.id} && DistinctIDs(rs + [r])
  {
  }

  lemma {:induction false} CountIDs(rs: seq<Rule>)
    requires DistinctIDs(rs)
    ensures |IDs(rs)| == |rs|
  {
    if rs != [] {
      var init, last := rs[..|rs| - 1], rs[|rs| - 1];
      CountIDs(init);
      assert rs == init + [last];
      assert last.id !in IDs(init);
      IDsSnoc(init, last);
      hide IDs, DistinctIDs;
    }
  }

  /** mergedFutureRules: the active rules, overridden by the staged ones. */
  method FutureRules(env: Env, t: Tree, staged: map<string, Rule>, a: View, m: View) returns (rs: seq<Rule>)
    requires EnvOK(env) && ActiveView(env, t, a) && StagedView(env, staged, m)
    ensures FutureList(env, t, staged, rs) && AllNormal(env, rs)
    ensures |rs| == |a.Keys + m.Keys|
  {
    hide EnvOK, FutureRule, FutureEntry, FutureEntries, AllNormal, ActiveView, StagedView, FutureList, DistinctIDs, IDs;
    rs := [];
    var todo := a.Keys + m.Keys;
    NoEntries(env, t, staged);
    while todo != {}
      invariant todo <= a.Keys + m.Keys && IDs(rs) == a.Keys + m.Keys - todo
      invariant DistinctIDs(rs) && FutureEntries(env, t, staged, rs) && AllNormal(env, rs)
      decreases todo
    {
      var id :| id in todo;
      AddEntry(env, t, staged, a, m, rs, id);
      rs := rs + [FutureRule(a, m, id)];
      todo := todo - {id};
    }
    FutureListFrom(env, t, staged, a, m, rs);
    CountIDs(rs);
  }

  ghost predicate AllNormal(env: Env, rs: seq<Rule>) {
    forall i :: 0 <= i < |rs| ==> Normalize(env, rs[i]) == Ok(rs[i])
  }

  ghost predicate FutureEntries(env: Env, t: Tree, staged: map<string, Rule>, rs: seq<Rule>) {
    forall i :: 0 <= i < |rs| ==> FutureEntry(env, t, staged, rs[i])
  }

  lemma NoEntries(env: Env, t: Tree, staged: map<string, Rule>)
    ensures IDs([]) == {} && DistinctIDs([]) && FutureEntries(env, t, staged, []) && AllNormal(env, [])
  {
  }

  lemma AddEntry(env: Env, t: Tree, staged: map<string, Rule>, a: View, m: View, rs: seq<Rule>, id: string)
    requires EnvOK(env) && ActiveView(env, t, a) && StagedView(env, staged, m) && (id in a || id in m)
    requires DistinctIDs(rs) && id !in IDs(rs) && FutureEntries(env, t, staged, rs) && AllNormal(env, rs)
    ensures var rs' := rs + [FutureRule(a, m, id)];
            IDs(rs') == IDs(rs) + {id} && DistinctIDs(rs') && FutureEntries(env, t, staged, rs') && AllNormal(env, rs')
  {
    hide EnvOK, FutureRule, Normalize, FutureEntry, ActiveView, StagedView, DistinctIDs, IDs;
    FutureEntryFrom(env, t, staged, a, m, id);
    IDsSnoc(rs, FutureRule(a, m, id));
  }

  lemma FutureListFrom(env: Env, t: Tree, staged: map<string, Rule>, a: View, m: View, rs: seq<Rule>)
    requires ActiveView(env, t, a) && StagedView(env, staged, m)
    requires IDs(rs) == a.Keys + m.Keys && DistinctIDs(rs)
    requires FutureEntries(env, t, staged, rs)
    ensures FutureList(env, t, staged, rs)
  {
    hide FutureEntry, DistinctIDs, IDs, ActiveView, StagedView;
    ViewHasAll(env, t, a);
    StagedKeys(env, staged, m);
  }

  lemma ViewHasAll(env: Env, t: Tree, a: View)
    requires ActiveView(env, t, a)
    ensures forall p :: p in t ==> t[p].id in a
  {
    hide FileRuleOK;
  }

  lemma StagedKeys(env: Env, staged: map<string, Rule>, m: View)
    requires StagedView(env, staged, m)
    ensures m.Keys == staged.Keys
  {
  }

  /** Some staged rules have been written over t, giving now, and each path has its backup. */
  ghost predicate Written(env: Env, t: Tree, staged: map<string, Rule>, ws: seq<Rule>, backups: seq<Backup>, now: Tree) {
    && StagedList(env, staged, ws) && DistinctIDs(ws) && now == WriteAll(env, t, ws)
    && TrueBackups(t, backups) && AllBackedUp(ws, backups)
  }

  ghost predicate AllBackedUp(ws: seq<Rule>, backups: seq<Backup>) {
    forall i :: 0 <= i < |ws| ==> InBackups(backups, PathOf(ws[i]))
  }

  lemma WrittenNone(env: Env, t: Tree, staged: map<string, Rule>)
    ensures Written(env, t, staged, [], [], t) && IDs([]) == {}
  {
  }

  /** No rule before it was written to the path of the next one. */
  lemma UntouchedPath(env: Env, t: Tree, staged: map<string, Rule>, ws: seq<Rule>, id: string)
    requires StagedList(env, staged, ws) && id !in IDs(ws)
    ensures Lookup(WriteAll(env, t, ws), CustomPath(id)) == Lookup(t, CustomPath(id))
  {
    hide Pub, IsCustom, CustomID, CustomPath, WriteAll, StagedList;
    CustomPathInverse(id);
    WriteStaged(env, t, staged, ws);
  }

  lemma WrittenBackup(env: Env, t: Tree, staged: map<string, Rule>, ws: seq<Rule>, backups: seq<Backup>, now: Tree, id: string)
    requires Written(env, t, staged, ws, backups, now) && id !in IDs(ws)
    ensures var bs := backups + [Backup(CustomPath(id), Lookup(now, CustomPath(id)))];
            Written(env, t, staged, ws, bs, now) && InBackups(bs, CustomPath(id))
  {
    hide Pub, CustomPath, PathOf, WriteAll, StagedList, IDs, DistinctIDs;
    UntouchedPath(env, t, staged, ws, id);
    var bs := backups + [Backup(CustomPath(id), Lookup(now, CustomPath(id)))];
    assert bs[|bs| - 1].path == CustomPath(id);
    forall i | 0 <= i < |ws| ensures InBackups(bs, PathOf(ws[i])) {
      assert InBackups(backups, PathOf(ws[i]));
      var k :| 0 <= k < |backups| && backups[k].path == PathOf(ws[i]);
      assert bs[k].path == PathOf(ws[i]);
    }
  }

  lemma WrittenMore(env: Env, t: Tree, staged: map<string, Rule>, m: View, ws: seq<Rule>, backups: seq<Backup>, now: Tree, id: string)
    requires EnvOK(env) && StagedView(env, staged, m) && id in m
    requires Written(env, t, staged, ws, backups, now) && id !in IDs(ws) && InBackups(backups, CustomPath(id))
    ensures var r := m[id].rule.(state := PUBLISHED);
            && Written(env, t, staged, ws + [r], backups, now[CustomPath(id) := Pub(env, m[id].rule)])
            && IDs(ws + [r]) == IDs(ws) + {id}
  {
    hide Pub, Normalize, CustomPath, InBackups, IDs, DistinctIDs, TrueBackups;
    var r := m[id].rule.(state := PUBLISHED);
    CustomNotEmpty(id);
    PubOfForm(env, m[id].rule, PUBLISHED, m[id].rule.path);
    IDsSnoc(ws, r);
    assert StagedEntry(env, staged, r);
    assert (ws + [r])[..|ws|] == ws;
  }

  /** The staged rule with that ID, or else the active one. */
  function FutureRule(a: View, m: View, id: string): Rule
    requires id in a || id in m
  {
    if id in m then m[id].rule.(state := PUBLISHED, path := CustomPath(id)) else a[id].rule
  }

  lemma FutureEntryFrom(env: Env, t: Tree, staged: map<string, Rule>, a: View, m: View, id: string)
    requires EnvOK(env) && ActiveView(env, t, a) && StagedView(env, staged, m) && (id in a || id in m)
    ensures var r := FutureRule(a, m, id);
            r.id == id && FutureEntry(env, t, staged, r) && Normalize(env, r) == Ok(r)
  {
    hide Pub, Normalize, CustomPath;
    if id in m {
      PubOfForm(env, m[id].rule, PUBLISHED, CustomPath(id));
      CustomNotEmpty(id);
    }
  }

  /** State and path of a normalised rule do not matter. */
  lemma PubOfForm(env: Env, r: Rule, state: string, path: string)
    requires EnvOK(env) && Normalize(env, r) == Ok(r)
    ensures var s := r.(state := state, path := path); Normalize(env, s) == Ok(s) && Pub(env, s) == Pub(env, r)
  {
    hide Normalize;
    NormalizeIgnoresState(env, r, state, path);
  }

  lemma WriteNone(env: Env, t: Tree)
    ensures WriteAll(env, t, []) == t
  {
  }

  lemma PathNotEmpty(r: Rule)
    ensures PathOf(r) != ""
  {
  }

  lemma WriteOneMore(env: Env, t: Tree, rs: seq<Rule>, i: nat)
    requires i < |rs|
    ensures WriteAll(env, t, rs[..i + 1]) == WriteAll(env, t, rs[..i])[PathOf(rs[i]) := Pub(env, rs[i])]
  {
    assert rs[..i + 1][..i] == rs[..i];
  }

  /** One file, read as a rule in the given state with the given path. */
  method ReadFile(env: Env, data: Rule, state: string, rel: Path) returns (f: Option<FileRule>)
    requires EnvOK(env) && rel != ""
    ensures f == None <==> !Valid(env, data)
    ensures f.Some? ==> FileRuleOK(env, f.value, data.id) && f.value.data == data && f.value.rel == rel && f.value.rule.path == rel
  {
    hide Pub, Normalize;
    var n := Normalize(env, data.(state := state, path := rel));
    NormalizeIgnoresState(env, data, state, rel);
    if n.Err? {
      return None;
    }
    PubIgnores(env, data, state, rel);
    ReadKeepsPath(env, data.(state := state, path := rel));
    f := Some(FileRule(n.value, rel, data));
  }

  lemma ReadKeepsPath(env: Env, r: Rule)
    requires EnvOK(env) && Normalize(env, r).Ok?
    ensures var n := Normalize(env, r).value; n.path == r.path && Normalize(env, n) == Ok(n)
  {
    NormalizeIdempotent(env, r);
  }

  /** Every file of a tree, by the ID of its rule; None if one cannot be read. */
  method ReadTree(env: Env, t: Tree) returns (m: Option<View>)
    requires EnvOK(env) && "" !in t
    ensures m == None <==> !Readable(env, t)
    ensures m.Some? ==> ActiveView(env, t, m.value)
  {
    hide Pub, Normalize, Valid;
    hide ReadSoFar;
    var out: View := map[];
    var todo := t.Keys;
    NothingRead(env, t);
    while todo != {}
      invariant todo <= t.Keys && ReadSoFar(env, t, out, todo)
      decreases todo
    {
      var p :| p in todo;
      var f := ReadFile(env, t[p], PUBLISHED, p);
      if f == None {
        return None;
      }
      ReadMore(env, t, out, todo, p, f.value);
      out := out[t[p].id := f.value];
      todo := todo - {p};
    }
    AllRead(env, t, out);
    m := Some(out);
  }

  /** The files of t outside todo have been read into out. */
  ghost predicate ReadSoFar(env: Env, t: Tree, out: View, todo: set<Path>) {
    && (forall p :: p in t && p !in todo ==> Valid(env, t[p]) && t[p].id in out)
    && (forall id :: id in out ==> FileRuleOK(env, out[id], id) && out[id].rel in t
                                   && out[id].data == t[out[id].rel] && out[id].rule.path == out[id].rel)
  }

  lemma NothingRead(env: Env, t: Tree)
    ensures ReadSoFar(env, t, map[], t.Keys)
  {
  }

  lemma ReadMore(env: Env, t: Tree, out: View, todo: set<Path>, p: Path, f: FileRule)
    requires ReadSoFar(env, t, out, todo) && p in todo && p in t && Valid(env, t[p])
    requires FileRuleOK(env, f, t[p].id) && f.rel == p && f.data == t[p] && f.rule.path == p
    ensures ReadSoFar(env, t, out[t[p].id := f], todo - {p})
  {
    hide Valid, FileRuleOK;
  }

  lemma AllRead(env: Env, t: Tree, out: View)
    requires ReadSoFar(env, t, out, {})
    ensures Readable(env, t) && ActiveView(env, t, out)
  {
    hide Valid, FileRuleOK;
  }
}
