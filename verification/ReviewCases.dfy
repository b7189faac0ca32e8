/** The human review queue: cases, their append-only event log, and the evaluation that opens cases.

    A transaction works on a copy of the tables and commits it whole. Any transaction may fail, by an
    arbitrary schedule. The main invariant is that every case is what its event log replays to. */
module ReviewCases {
  import opened Text
  import opened Wrappers

  datatype Case = Case(
    id: string, contextHash: string, status: string, reviewer: string, note: string,
    createdAt: int, updatedAt: int, decidedAt: Option<int>, temporaryAction: string, priority: string, rest: string)

  datatype Event = Event(
    caseID: string, at: int, actor: string, action: string, previous: string, next: string, note: string, metadata: string)

  /** The two tables, in the order of their row numbers. */
  datatype Db = Db(rows: seq<Case>, events: seq<Event>)

  predicate IsOpen(c: Case) {
    c.status in ["pending", "reviewing"]
  }

  predicate IsDecided(status: string) {
    status in ["approved", "rejected", "ignored"]
  }

  /** reviewStatusForAction: the next status, and whether it decides the case. */
  function StatusFor(action: string, current: string): (string, bool) {
    match action
    case "approve" => ("approved", true)
    case "reject" => ("rejected", true)
    case "ignore" => ("ignored", true)
    case "escalate" => ("escalated", false)
    case "reopen" => ("pending", false)
    case "add_note" => (current, false)
    case _ => ("", false)
  }

  predicate ValidAction(action: string) {
    action in ["approve", "reject", "ignore", "escalate", "reopen", "add_note"]
  }

  function AppendNote(u: Unicode, existing: string, note: string): string {
    var n := Trim(u, note);
    if n == "" then existing else if existing == "" then n else existing + "\n" + n
  }

  // ---------- What a log means ----------

  /** The columns that decisions change. */
  datatype State = State(status: string, reviewer: string, note: string, updatedAt: int, decidedAt: Option<int>)

  function StateOf(c: Case): State {
    State(c.status, c.reviewer, c.note, c.updatedAt, c.decidedAt)
  }

  function Log(events: seq<Event>, id: string): seq<Event> {
    if events == [] then []
    else Log(events[..|events| - 1], id) + if events[|events| - 1].caseID == id then [events[|events| - 1]] else []
  }

  lemma LogSnoc(events: seq<Event>, e: Event, id: string)
    ensures Log(events + [e], id) == Log(events, id) + if e.caseID == id then [e] else []
  {
  }

  /** The state after a log: the first event creates the case, the others decide it or add a note. */
  function Replay(u: Unicode, log: seq<Event>): State
    requires log != []
  {
    var e := log[|log| - 1];
    if |log| == 1 then State(e.next, "", "", e.at, None)
    else
      var s := Replay(u, log[..|log| - 1]);
      if e.action == "add_note" then s.(note := AppendNote(u, s.note, e.note), updatedAt := e.at)
      else State(e.next, e.actor, AppendNote(u, s.note, e.note), e.at, if IsDecided(e.next) then Some(e.at) else None)
  }

  /** A log is a chain: it starts with the creation, each event starts from the status that the one
      before ended in, and ends in the status that its action leads to. */
  ghost predicate Chain(log: seq<Event>) {
    && log != [] && log[0].action == "created" && log[0].previous == "" && log[0].next == "pending"
    && forall k :: 1 <= k < |log| ==>
                     && log[k].previous == log[k - 1].next
                     && ValidAction(log[k].action) && log[k].next == StatusFor(log[k].action, log[k].previous).0
  }

  lemma {:induction false} ReplayOfChain(u: Unicode, log: seq<Event>)
    requires Chain(log)
    ensures var s := Replay(u, log);
            && s.status == log[|log| - 1].next && s.updatedAt == log[|log| - 1].at && s.status != ""
            && (s.decidedAt.Some? <==> IsDecided(s.status))
  {
    hide AppendNote;
    if |log| > 1 {
      var init := log[..|log| - 1];
      assert forall k :: 0 <= k < |init| ==> init[k] == log[k];
      ReplayOfChain(u, init);
    }
  }

  /** The k-th event is the last one that is not a note. */
  ghost predicate LastChange(log: seq<Event>, k: nat) {
    k < |log| && (k == 0 || log[k].action != "add_note") && forall i :: k < i < |log| ==> log[i].action == "add_note"
  }

  /** What each action but a note makes of a case. */
  ghost predicate Leads(action: string, status: string) {
    && (status == "approved" <==> action == "approve")
    && (status == "rejected" <==> action == "reject")
    && (status == "ignored" <==> action == "ignore")
    && (status == "escalated" <==> action == "escalate")
    && (status == "pending" <==> action in ["created", "reopen"])
    && status in ["approved", "rejected", "ignored", "escalated", "pending"]
  }

  ghost predicate ChangedBy(s: State, e: Event) {
    && Leads(e.action, s.status)
    && s.reviewer == (if e.action == "created" then "" else e.actor)
    && s.decidedAt == (if e.action in ["approve", "reject", "ignore"] then Some(e.at) else None)
  }

  lemma ActionLeads(action: string, current: string)
    requires ValidAction(action)
    ensures var next := StatusFor(action, current).0;
            if action == "add_note" then next == current
            else Leads(action, next) && (IsDecided(next) <==> action in ["approve", "reject", "ignore"])
  {
  }

  lemma CreationLeads()
    ensures Leads("created", "pending")
  {
  }

  lemma LastEvent(u: Unicode, log: seq<Event>)
    requires Chain(log)
    ensures log != [] && Replay(u, log).updatedAt == log[|log| - 1].at
    ensures var k := |log| - 1; var s := Replay(u, log);
            if k == 0 || log[k].action != "add_note" then ChangedBy(s, log[k])
            else
              && Chain(log[..k])
              && var t := Replay(u, log[..k]); s.status == t.status && s.reviewer == t.reviewer && s.decidedAt == t.decidedAt
  {
    hide AppendNote, StatusFor, Leads, IsDecided, ValidAction;
    CreationLeads();
    if |log| > 1 {
      var init, last := log[..|log| - 1], log[|log| - 1];
      assert forall i :: 0 <= i < |init| ==> init[i] == log[i];
      ReplayOfChain(u, init);
      ActionLeads(last.action, last.previous);
      NotCreation(last.action);
    }
  }

  lemma NotCreation(action: string)
    requires ValidAction(action)
    ensures action != "created"
  {
  }

  /** Status, reviewer and decision time are those of the last event that is not a note. */
  lemma {:induction false} StatusByLastChange(u: Unicode, log: seq<Event>) returns (k: nat)
    requires Chain(log)
    ensures LastChange(log, k) && ChangedBy(Replay(u, log), log[k]) && Replay(u, log).updatedAt == log[|log| - 1].at
  {
    hide Chain, Replay, Leads;
    LastEvent(u, log);
    k := |log| - 1;
    if k > 0 && log[k].action == "add_note" {
      var init := log[..k];
      k := StatusByLastChange(u, init);
      assert forall i :: 0 <= i < |init| ==> init[i] == log[i];
    }
  }

  /** The notes after the creation that are not blank, trimmed. */
  ghost function NotesOf(u: Unicode, log: seq<Event>): seq<string> {
    if |log| <= 1 then []
    else
      var note := Trim(u, log[|log| - 1].note);
      NotesOf(u, log[..|log| - 1]) + if note == "" then [] else [note]
  }

  ghost function Lines(notes: seq<string>): string {
    if notes == [] then "" else if |notes| == 1 then notes[0] else Lines(notes[..|notes| - 1]) + "\n" + notes[|notes| - 1]
  }

  /** A case's note holds the notes of all its events, one below the other. */
  lemma {:induction false} NoteIsHistory(u: Unicode, log: seq<Event>)
    requires log != []
    ensures Replay(u, log).note == Lines(NotesOf(u, log))
    ensures Replay(u, log).note == "" <==> NotesOf(u, log) == []
  {
    hide Trim, Lines, Replay;
    ReplayNote(u, log);
    LinesOfNone();
    if |log| > 1 {
      NoteIsHistory(u, log[..|log| - 1]);
      assert NotesOf(u, log[..|log| - 1]) + [] == NotesOf(u, log[..|log| - 1]);
      LinesSnoc(NotesOf(u, log[..|log| - 1]), Trim(u, log[|log| - 1].note));
    }
  }

  lemma ReplayNote(u: Unicode, log: seq<Event>)
    requires log != []
    ensures Replay(u, log).note ==
            if |log| == 1 then "" else AppendNote(u, Replay(u, log[..|log| - 1]).note, log[|log| - 1].note)
  {
    hide AppendNote;
  }

  lemma LinesOfNone()
    ensures Lines([]) == ""
  {
  }

  lemma LinesSnoc(notes: seq<string>, note: string)
    ensures Lines(notes + [note]) == if notes == [] then note else Lines(notes) + "\n" + note
  {
    assert (notes + [note])[..|notes|] == notes;
  }

  // ---------- The tables ----------

  /** The library: character tables, and the case ID for a context hash. */
  datatype Lib = Lib(u: Unicode, caseID: string -> string)

  /** No two contexts give the same case ID, although it is cut from the hash. */
  ghost predicate LibOK(lib: Lib) {
    forall a, b :: lib.caseID(a) == lib.caseID(b) ==> a == b
  }

  ghost predicate RowOK(lib: Lib, db: Db, i: nat)
    requires i < |db.rows|
  {
    var c := db.rows[i]; var log := Log(db.events, c.id);
    c.id == lib.caseID(c.contextHash) && Chain(log) && StateOf(c) == Replay(lib.u, log)
  }

  ghost predicate DistinctIDs(rows: seq<Case>) {
    forall i, j :: 0 <= i < j < |rows| ==> rows[i].id != rows[j].id
  }

  ghost predicate HasRow(rows: seq<Case>, id: string) {
    exists i :: 0 <= i < |rows| && rows[i].id == id
  }

  ghost predicate DbOK(lib: Lib, db: Db) {
    && DistinctIDs(db.rows)
    && (forall i :: 0 <= i < |db.rows| ==> RowOK(lib, db, i))
    && (forall k :: 0 <= k < |db.events| ==> HasRow(db.rows, db.events[k].caseID))
  }

  /** What a reader learns of a case. */
  lemma CaseFacts(lib: Lib, db: Db, i: nat)
    requires DbOK(lib, db) && i < |db.rows|
    ensures var c := db.rows[i]; var log := Log(db.events, c.id);
            && Chain(log) && log[|log| - 1].next == c.status && c.status != ""
            && (c.decidedAt.Some? <==> IsDecided(c.status))
            && (exists k: nat :: LastChange(log, k) && ChangedBy(StateOf(c), log[k]))
            && c.note == Lines(NotesOf(lib.u, log)) && c.updatedAt == log[|log| - 1].at
            && (IsOpen(c) <==> c.status == "pending")
  {
    hide Replay, Log, Lines, NotesOf, LastChange;
    assert RowOK(lib, db, i);
    var log := Log(db.events, db.rows[i].id);
    ReplayOfChain(lib.u, log);
    NoteIsHistory(lib.u, log);
    var k := StatusByLastChange(lib.u, log);
  }

  /** One case for each context hash. */
  lemma OneCasePerContext(lib: Lib, db: Db, i: nat, j: nat)
    requires LibOK(lib) && DbOK(lib, db) && i < |db.rows| && j < |db.rows|
    ensures db.rows[i].contextHash == db.rows[j].contextHash <==> i == j
  {
    hide Replay, Log, Chain;
    assert RowOK(lib, db, i) && RowOK(lib, db, j);
  }

  // ---------- Creating ----------

  predicate IsNew(lib: Lib, c: Case, e: Event) {
    && c.id == lib.caseID(c.contextHash) && c.status == "pending" && c.reviewer == "" && c.note == "" && c.decidedAt == None
    && e.caseID == c.id && e.action == "created" && e.previous == "" && e.next == c.status && e.at == c.updatedAt
  }

  lemma {:induction false} NoEvents(events: seq<Event>, id: string)
    requires forall k :: 0 <= k < |events| ==> events[k].caseID != id
    ensures Log(events, id) == []
  {
    if events != [] {
      NoEvents(events[..|events| - 1], id);
    }
  }

  /** Inserting a case with its creation event keeps the tables right. */
  lemma CreateKeeps(lib: Lib, db: Db, c: Case, e: Event)
    requires DbOK(lib, db) && IsNew(lib, c, e) && !HasRow(db.rows, c.id)
    ensures DbOK(lib, Db(db.rows + [c], db.events + [e]))
  {
    hide Replay, Log, Chain;
    var after := Db(db.rows + [c], db.events + [e]);
    forall k | 0 <= k < |db.events| ensures db.events[k].caseID != c.id && HasRow(after.rows, db.events[k].caseID) {
      var i :| 0 <= i < |db.rows| && db.rows[i].id == db.events[k].caseID;
      assert after.rows[i] == db.rows[i];
    }
    assert after.rows[|db.rows|] == c;
    NoEvents(db.events, c.id);
    LogSnoc(db.events, e, c.id);
    NewLog(lib, c, e);
    forall i | 0 <= i < |after.rows| ensures RowOK(lib, after, i) {
      if i < |db.rows| {
        assert RowOK(lib, db, i) && db.rows[i].id != c.id;
        LogSnoc(db.events, e, db.rows[i].id);
        assert Log(db.events, db.rows[i].id) + [] == Log(db.events, db.rows[i].id);
      }
    }
  }

  lemma NewLog(lib: Lib, c: Case, e: Event)
    requires IsNew(lib, c, e)
    ensures Chain([] + [e]) && StateOf(c) == Replay(lib.u, [] + [e])
  {
  }

  // ---------- Deciding ----------

  datatype Decision = Decision(action: string, actor: string, note: string, metadata: string)

  /** The case after a valid decision. */
  function Decided(u: Unicode, c: Case, d: Decision, now: int): Case {
    if d.action == "add_note" then c.(note := AppendNote(u, c.note, d.note), updatedAt := now)
    else
      c.(status := StatusFor(d.action, c.status).0, reviewer := d.actor, note := AppendNote(u, c.note, d.note), updatedAt := now,
         decidedAt := if StatusFor(d.action, c.status).1 then Some(now) else None)
  }

  function EventOf(c: Case, d: Decision, now: int): Event {
    Event(c.id, now, d.actor, d.action, c.status, StatusFor(d.action, c.status).0, d.note, d.metadata)
  }

  lemma DecidedLog(u: Unicode, c: Case, d: Decision, now: int, log: seq<Event>)
    requires Chain(log) && StateOf(c) == Replay(u, log) && ValidAction(d.action)
    ensures Chain(log + [EventOf(c, d, now)])
    ensures StateOf(Decided(u, c, d, now)) == Replay(u, log + [EventOf(c, d, now)])
  {
    hide AppendNote, StatusFor, ValidAction, IsDecided, Replay;
    var e := EventOf(c, d, now);
    ReplayOfChain(u, log);
    Decides(d.action, c.status);
    ReplaySnoc(u, log, e);
  }

  lemma Decides(action: string, current: string)
    requires ValidAction(action)
    ensures var (next, decided) := StatusFor(action, current);
            if action == "add_note" then next == current else decided == IsDecided(next)
  {
  }

  lemma ReplaySnoc(u: Unicode, log: seq<Event>, e: Event)
    requires log != []
    ensures Replay(u, log + [e]) ==
            var s := Replay(u, log);
            if e.action == "add_note" then s.(note := AppendNote(u, s.note, e.note), updatedAt := e.at)
            else State(e.next, e.actor, AppendNote(u, s.note, e.note), e.at, if IsDecided(e.next) then Some(e.at) else None)
  {
    hide AppendNote;
    assert (log + [e])[..|log|] == log;
  }

  /** One decision keeps the tables right. */
  lemma DecideKeeps(lib: Lib, db: Db, i: nat, d: Decision, now: int)
    requires DbOK(lib, db) && i < |db.rows| && ValidAction(d.action)
    ensures DbOK(lib, Db(db.rows[i := Decided(lib.u, db.rows[i], d, now)], db.events + [EventOf(db.rows[i], d, now)]))
  {
    hide Replay, Log, Chain, AppendNote, StatusFor, ValidAction;
    var c, e := db.rows[i], EventOf(db.rows[i], d, now);
    var after := Db(db.rows[i := Decided(lib.u, c, d, now)], db.events + [e]);
    forall k | 0 <= k < |after.rows| ensures after.rows[k].id == db.rows[k].id && RowOK(lib, after, k) {
      assert RowOK(lib, db, k);
      LogSnoc(db.events, e, db.rows[k].id);
      if k == i {
        DecidedLog(lib.u, c, d, now, Log(db.events, c.id));
      } else {
        assert db.rows[k].id != c.id;
        assert Log(db.events, db.rows[k].id) + [] == Log(db.events, db.rows[k].id);
      }
    }
    forall k | 0 <= k < |after.events| ensures HasRow(after.rows, after.events[k].caseID) {
      if k < |db.events| {
        var j :| 0 <= j < |db.rows| && db.rows[j].id == db.events[k].caseID;
        assert after.rows[j].id == db.rows[j].id;
      } else {
        assert after.rows[i].id == e.caseID;
      }
    }
  }

  /** A decision that is not a note leads to its own status. */
  lemma DecidedLeads(u: Unicode, c: Case, d: Decision, now: int)
    requires ValidAction(d.action) && d.action != "add_note"
    ensures Leads(d.action, Decided(u, c, d, now).status) && Decided(u, c, d, now).reviewer == d.actor
  {
  }

  /** WHERE case_id = ?. */
  method FindCase(rows: seq<Case>, id: string) returns (i: Option<nat>)
    ensures i.Some? ==> i.value < |rows| && rows[i.value].id == id
    ensures i == None ==> !HasRow(rows, id)
  {
    for k := 0 to |rows|
      invariant forall j :: 0 <= j < k ==> rows[j].id != id
    {
      if rows[k].id == id {
        return Some(k);
      }
    }
    i := None;
  }

  /** decideReviewCaseTx, on the tables of a transaction. */
  method DecideTx(lib: Lib, db: Db, id: string, d: Decision, now: int) returns (r: Option<Db>, c: Option<Case>)
    requires DbOK(lib, db)
    ensures r.Some? <==> HasRow(db.rows, id) && ValidAction(d.action)
    ensures r.Some? ==> DecidedRow(lib, db, r.value, id, d, now) && DbOK(lib, r.value)
                        && c.Some? && c.value in r.value.rows && c.value.id == id
    ensures r.Some? && d.action != "add_note" ==> Leads(d.action, c.value.status) && c.value.reviewer == d.actor
    ensures r == None ==> c == None
  {
    hide AppendNote, RowOK, DistinctIDs, Leads, LastChange, Lines, NotesOf;
    r, c := None, None;
    var i := FindCase(db.rows, id);
    if i == None {
      return;
    }
    var row := db.rows[i.value];
    CaseFacts(lib, db, i.value);
    var prev := row.status;
    var (next, decided) := StatusFor(d.action, prev);
    if next == "" {
      return;
    }
    if d.action == "add_note" {
      row := row.(note := AppendNote(lib.u, row.note, d.note));
    } else {
      row := row.(status := next, reviewer := d.actor);
      if d.note != "" {
        row := row.(note := AppendNote(lib.u, row.note, d.note));
      }
      if decided {
        row := row.(decidedAt := Some(now));
      } else {
        row := row.(decidedAt := None);
      }
    }
    row := row.(updatedAt := now);
    NoNote(lib.u, db.rows[i.value].note);
    DecideKeeps(lib, db, i.value, d, now);
    assert row == Decided(lib.u, db.rows[i.value], d, now);
    if d.action != "add_note" {
      DecidedLeads(lib.u, db.rows[i.value], d, now);
    }
    var event := Event(id, now, d.actor, d.action, prev, row.status, d.note, d.metadata);
    r := Some(Db(db.rows[i.value := row], db.events + [event]));
    c := Some(row);
    assert r.value.rows[i.value] == row;
  }

  lemma NoNote(u: Unicode, existing: string)
    ensures AppendNote(u, existing, "") == existing
  {
  }

  /** Exactly one row changes, and one event is appended. */
  ghost predicate DecidedRow(lib: Lib, db: Db, after: Db, id: string, d: Decision, now: int) {
    exists i :: 0 <= i < |db.rows| && db.rows[i].id == id
                && after == Db(db.rows[i := Decided(lib.u, db.rows[i], d, now)], db.events + [EventOf(db.rows[i], d, now)])
  }

  // ---------- Deciding several cases ----------

  /** The listed cases have each been decided once, from the state they were in, with one event each in
      the order of the list; nothing else has changed. */
  ghost predicate BulkDone(lib: Lib, db: Db, after: Db, ids: seq<string>, d: Decision, times: seq<int>)
    requires |times| >= |ids|
  {
    && |after.rows| == |db.rows| && |after.events| == |db.events| + |ids| && after.events[..|db.events|] == db.events
    && (forall i :: 0 <= i < |db.rows| ==> after.rows[i].id == db.rows[i].id)
    && (forall i :: 0 <= i < |db.rows| && db.rows[i].id !in ids ==> after.rows[i] == db.rows[i])
    && (forall k :: 0 <= k < |ids| ==> HasRow(db.rows, ids[k]))
    && (forall i, k :: 0 <= i < |db.rows| && 0 <= k < |ids| && db.rows[i].id == ids[k] ==>
                         && after.rows[i] == Decided(lib.u, db.rows[i], d, times[k])
                         && after.events[|db.events| + k] == EventOf(db.rows[i], d, times[k]))
  }

  lemma BulkNone(lib: Lib, db: Db, ids: seq<string>, d: Decision, times: seq<int>)
    ensures BulkDone(lib, db, db, ids[..0], d, times)
  {
  }

  lemma BulkMore(lib: Lib, db: Db, mid: Db, after: Db, ids: seq<string>, n: nat, d: Decision, times: seq<int>)
    requires n < |ids| <= |times| && ids[n] !in ids[..n] && BulkDone(lib, db, mid, ids[..n], d, times)
    requires DistinctIDs(mid.rows) && DecidedRow(lib, mid, after, ids[n], d, times[n])
    ensures BulkDone(lib, db, after, ids[..n + 1], d, times)
  {
    hide Decided, EventOf, HasRow;
    var i :| 0 <= i < |mid.rows| && mid.rows[i].id == ids[n]
             && after == Db(mid.rows[i := Decided(lib.u, mid.rows[i], d, times[n])], mid.events + [EventOf(mid.rows[i], d, times[n])]);
    assert ids[..n + 1] == ids[..n] + [ids[n]];
    assert mid.rows[i] == db.rows[i];
    assert db.rows[i].id == ids[n];
    SameID(lib.u, db.rows[i], d, times[n]);
    RowAt(db.rows, i);
  }

  lemma RowAt(rows: seq<Case>, i: nat)
    requires i < |rows|
    ensures HasRow(rows, rows[i].id)
  {
  }

  lemma SameID(u: Unicode, c: Case, d: Decision, now: int)
    ensures Decided(u, c, d, now).id == c.id
  {
  }

  /** The bulk is possible: distinct cases that exist, and a valid action. */
  ghost predicate CanBulk(db: Db, ids: seq<string>, action: string) {
    && (forall j, k :: 0 <= j < k < |ids| ==> ids[j] != ids[k])
    && (forall k :: 0 <= k < |ids| ==> HasRow(db.rows, ids[k]))
    && (ids != [] ==> ValidAction(action))
  }

  /** The loop of BulkDecideReviewCases, on the tables of its transaction. */
  method BulkTx(lib: Lib, db: Db, ids: seq<string>, d: Decision, times: seq<int>) returns (r: Option<Db>, cs: seq<Case>)
    requires DbOK(lib, db) && |times| == |ids|
    ensures r.Some? <==> CanBulk(db, ids, d.action)
    ensures r.Some? ==> DbOK(lib, r.value) && BulkDone(lib, db, r.value, ids, d, times)
    ensures r.Some? ==> |cs| == |ids| && forall k :: 0 <= k < |ids| ==> cs[k].id == ids[k] && cs[k] in r.value.rows
    ensures r.Some? && d.action != "add_note" ==> forall k :: 0 <= k < |ids| ==> Leads(d.action, cs[k].status) && cs[k].reviewer == d.actor
  {
    hide DbOK, BulkDone, DecidedRow, ValidAction, HasRow, Leads;
    var tx := db;
    cs := [];
    var seen: set<string> := {};
    BulkNone(lib, db, ids, d, times);
    for n := 0 to |ids|
      invariant DbOK(lib, tx) && BulkDone(lib, db, tx, ids[..n], d, times)
      invariant seen == set k | 0 <= k < n :: ids[k]
      invariant forall j, k :: 0 <= j < k < n ==> ids[j] != ids[k]
      invariant forall k :: 0 <= k < n ==> HasRow(db.rows, ids[k])
      invariant n > 0 ==> ValidAction(d.action)
      invariant |cs| == n && forall k :: 0 <= k < n ==> cs[k].id == ids[k] && cs[k] in tx.rows
      invariant d.action != "add_note" ==> forall k :: 0 <= k < n ==> Leads(d.action, cs[k].status) && cs[k].reviewer == d.actor
    {
      if ids[n] in seen {
        return None, [];
      }
      seen := seen + {ids[n]};
      BulkSameRows(lib, db, tx, ids[..n], d, times);
      var after, c := DecideTx(lib, tx, ids[n], d, times[n]);
      if after == None {
        return None, [];
      }
      DbDistinct(lib, tx);
      StillThere(lib, tx, after.value, ids[n], d, times[n]);
      BulkMore(lib, db, tx, after.value, ids, n, d, times);
      tx := after.value;
      cs := cs + [c.value];
    }
    assert ids[..|ids|] == ids;
    r := Some(tx);
  }

  lemma StillThere(lib: Lib, db: Db, after: Db, id: string, d: Decision, now: int)
    requires DecidedRow(lib, db, after, id, d, now)
    ensures forall c :: c in db.rows && c.id != id ==> c in after.rows
  {
    hide Decided, EventOf;
    forall c | c in db.rows && c.id != id ensures c in after.rows {
      var k :| 0 <= k < |db.rows| && db.rows[k] == c;
      assert after.rows[k] == c;
    }
  }

  lemma DbDistinct(lib: Lib, db: Db)
    requires DbOK(lib, db)
    ensures DistinctIDs(db.rows)
  {
  }

  lemma BulkSameRows(lib: Lib, db: Db, tx: Db, ids: seq<string>, d: Decision, times: seq<int>)
    requires |times| >= |ids| && BulkDone(lib, db, tx, ids, d, times)
    ensures forall id :: HasRow(tx.rows, id) <==> HasRow(db.rows, id)
  {
  }

  // ---------- The store ----------

  class Store {
    const lib: Lib
    const schedule: nat -> bool  // which transactions fail
    var tick: nat
    var db: Db
    ghost var faults: nat  // how many transactions have failed

    ghost predicate Inv()
      reads this
    {
      DbOK(lib, db)
    }

    constructor (lib: Lib, schedule: nat -> bool)
      ensures Inv() && db == Db([], []) && this.lib == lib
    {
      this.lib, this.schedule, tick, db, faults := lib, schedule, 0, Db([], []), 0;
    }

    method Fault() returns (fail: bool)
      modifies this`tick, this`faults
      ensures faults == old(faults) + if fail then 1 else 0
    {
      fail := schedule(tick);
      tick := tick + 1;
      if fail { faults := faults + 1; }
    }

    /** The newest open case with the hash: by creation time, then by row. */
    method FindOpen(hash: string) returns (i: Option<nat>)
      ensures i == None <==> !OpenCase(db.rows, hash)
      ensures i.Some? ==> i.value < |db.rows| && IsOpen(db.rows[i.value]) && db.rows[i.value].contextHash == hash
                          && forall j :: 0 <= j < |db.rows| && IsOpen(db.rows[j]) && db.rows[j].contextHash == hash ==>
                                           db.rows[j].createdAt < db.rows[i.value].createdAt
                                           || (db.rows[j].createdAt == db.rows[i.value].createdAt && j <= i.value)
    {
      hide IsOpen;
      i := None;
      for k := 0 to |db.rows|
        invariant i == None <==> !OpenCase(db.rows[..k], hash)
        invariant i.Some? ==> i.value < k && IsOpen(db.rows[i.value]) && db.rows[i.value].contextHash == hash
                              && forall j :: 0 <= j < k && IsOpen(db.rows[j]) && db.rows[j].contextHash == hash ==>
                                               db.rows[j].createdAt < db.rows[i.value].createdAt
                                               || (db.rows[j].createdAt == db.rows[i.value].createdAt && j <= i.value)
      {
        var c := db.rows[k];
        assert db.rows[..k + 1] == db.rows[..k] + [c];
        if IsOpen(c) && c.contextHash == hash {
          assert db.rows[..k + 1][k] == c;
          if i == None || db.rows[i.value].createdAt <= c.createdAt {
            i := Some(k);
          }
        }
      }
      assert db.rows[..|db.rows|] == db.rows;
    }

    /** CreateReviewCase: the open case for this context if there is one, or else a new one; a case ID
        that exists already is an error. */
    method Create(c: Case, e: Event) returns (r: Option<(Case, bool)>)
      requires Inv() && IsNew(lib, c, e) && c.contextHash != ""
      modifies this`tick, this`faults, this`db
      ensures Inv()
      ensures faults == old(faults) ==> (r == None <==> HasRow(old(db).rows, c.id) && !OpenCase(old(db).rows, c.contextHash))
      ensures r.Some? && r.value.1 ==> r.value.0 == c && db == Db(old(db).rows + [c], old(db).events + [e])
                                       && !HasRow(old(db).rows, c.id) && !OpenCase(old(db).rows, c.contextHash)
      ensures r.Some? && !r.value.1 ==> r.value.0 in db.rows && IsOpen(r.value.0) && r.value.0.contextHash == c.contextHash
      ensures r == None || !r.value.1 ==> db == old(db)
    {
      hide DbOK, IsNew, IsOpen;
      var fail := Fault();
      if fail {
        return None;
      }
      var open := FindOpen(c.contextHash);
      if open.Some? {
        return Some((db.rows[open.value], false));
      }
      var i := FindCase(db.rows, c.id);
      if i.Some? {
        return None;
      }
      CreateKeeps(lib, db, c, e);
      fail := Fault();
      if fail {
        return None;
      }
      db := Db(db.rows + [c], db.events + [e]);
      assert db.rows[|db.rows| - 1] == c;
      r := Some((c, true));
    }

    method Decide(id: string, d: Decision, now: int) returns (r: Option<Case>)
      requires Inv()
      modifies this`tick, this`faults, this`db
      ensures Inv()
      ensures faults == old(faults) ==>
                (r.Some? <==> HasRow(old(db).rows, id) && d.action in ["approve", "reject", "ignore", "escalate", "reopen", "add_note"])
      ensures r.Some? ==> DecidedRow(lib, old(db), db, id, d, now) && r.value in db.rows && r.value.id == id
      ensures r.Some? && d.action != "add_note" ==> Leads(d.action, r.value.status) && r.value.reviewer == d.actor
      ensures r == None ==> db == old(db)
    {
      hide DbOK, DecidedRow, Leads;
      var fail := Fault();
      if fail {
        return None;
      }
      var tx, c := DecideTx(lib, db, id, d, now);
      if tx == None {
        return None;
      }
      fail := Fault();
      if fail {
        return None;
      }
      db := tx.value;
      r := c;
    }

    /** All of the listed cases are decided, or nothing has changed. */
    method BulkDecide(ids: seq<string>, d: Decision, times: seq<int>) returns (r: Option<seq<Case>>)
      requires Inv() && |times| == |ids|
      modifies this`tick, this`faults, this`db
      ensures Inv()
      ensures faults == old(faults) ==> (r.Some? <==> CanBulk(old(db), ids, d.action))
      ensures r.Some? ==> BulkDone(lib, old(db), db, ids, d, times) && |r.value| == |ids|
                          && forall k :: 0 <= k < |ids| ==> r.value[k].id == ids[k] && r.value[k] in db.rows
      ensures r.Some? && d.action != "add_note" ==>
                forall k :: 0 <= k < |ids| ==> Leads(d.action, r.value[k].status) && r.value[k].reviewer == d.actor
      ensures r == None ==> db == old(db)
    {
      hide DbOK, BulkDone, CanBulk, Leads;
      var fail := Fault();
      if fail {
        return None;
      }
      var tx, cs := BulkTx(lib, db, ids, d, times);
      if tx == None {
        return None;
      }
      fail := Fault();
      if fail {
        return None;
      }
      db := tx.value;
      r := Some(cs);
    }
  }

  ghost predicate OpenCase(rows: seq<Case>, hash: string) {
    exists i :: 0 <= i < |rows| && IsOpen(rows[i]) && rows[i].contextHash == hash
  }
}
