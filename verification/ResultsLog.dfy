/** The results file: one JSON record per line, rewritten under a lock by any number of workers, and resumed later. */
module ResultsLog {
  import opened Sequences
  import V = Verdict

  /** A record of the file. A category that is null, absent or unknown is `None`. */
  datatype Record = Record(id: string, row: V.Row)

  /** A stripped line: blank, not JSON or without a `document_id`; JSON that is no object; or a record. */
  datatype Line = Skipped | Unusable | Entry(record: Record)

  type Table = map<string, V.Row>

  // ----- the ordered dictionary and the file it is read from -----

  predicate Distinct(rows: seq<Record>) {
    forall i, j :: 0 <= i < j < |rows| ==> rows[i].id != rows[j].id
  }

  /** Assignment to a dictionary that keeps insertion order: an old key keeps its place, a new one comes last. */
  function Put(rows: seq<Record>, r: Record): (out: seq<Record>) {
    if rows == [] then [r]
    else if rows[0].id == r.id then [r] + rows[1..]
    else [rows[0]] + Put(rows[1..], r)
  }

  /** So it is either an update in place or an addition at the end. */
  lemma {:induction false} PutExactly(rows: seq<Record>, r: Record)
    requires Distinct(rows)
    ensures forall i :: 0 <= i < |rows| && rows[i].id == r.id ==> Put(rows, r) == rows[i := r]
    ensures (forall i :: 0 <= i < |rows| ==> rows[i].id != r.id) ==> Put(rows, r) == rows + [r]
  {
    if rows != [] && rows[0].id != r.id {
      assert Distinct(rows[1..]);
      PutExactly(rows[1..], r);
      assert rows == [rows[0]] + rows[1..];
      forall i | 0 <= i < |rows| && rows[i].id == r.id ensures Put(rows, r) == rows[i := r] {
        assert rows[1..][i - 1] == rows[i];
      }
      if forall i :: 0 <= i < |rows| ==> rows[i].id != r.id {
        assert forall i :: 0 <= i < |rows[1..]| ==> rows[1..][i] == rows[i + 1];
      }
    }
  }

  function View(rows: seq<Record>): Table {
    if rows == [] then map[] else View(rows[..|rows| - 1])[rows[|rows| - 1].id := rows[|rows| - 1].row]
  }

  /** `start` overridden by the records, in their order. */
  function Override(start: Table, rows: seq<Record>): Table {
    if rows == [] then start
    else Override(start, rows[..|rows| - 1])[rows[|rows| - 1].id := rows[|rows| - 1].row]
  }

  function Load(lines: seq<Line>): (r: Option<seq<Record>>)
    ensures r.Some? ==> Distinct(r.value)
  {
    if lines == [] then Some([])
    else
      var before := Load(lines[..|lines| - 1]);
      match lines[|lines| - 1]
      case Skipped => before
      case Unusable => None
      case Entry(rec) =>
        if before.None? then None
        else
          PutFacts(before.value, rec);
          Some(Put(before.value, rec))
  }

  function Entries(rows: seq<Record>): (lines: seq<Line>)
    ensures |lines| == |rows| && forall i :: 0 <= i < |rows| ==> lines[i] == Entry(rows[i])
  {
    seq(|rows|, i requires 0 <= i < |rows| => Entry(rows[i]))
  }

  /** The table holds exactly the records of the dictionary. */
  predicate Holds(t: Table, rows: seq<Record>) {
    && (forall q :: q in rows ==> q.id in t && t[q.id] == q.row)
    && (forall id :: id in t ==> Record(id, t[id]) in rows)
  }

  lemma {:induction false} PutFacts(rows: seq<Record>, r: Record)
    requires Distinct(rows)
    ensures Distinct(Put(rows, r))
    ensures forall q :: q in Put(rows, r) <==> q == r || (q in rows && q.id != r.id)
  {
    if rows != [] {
      PutFacts(rows[1..], r);
      assert rows == [rows[0]] + rows[1..];
      forall q | q in rows[1..] ensures q.id != rows[0].id {}
      if rows[0].id != r.id {
        PutDistinct(rows[0], Put(rows[1..], r));
      }
    }
  }

  lemma {:induction false} PutDistinct(first: Record, rest: seq<Record>)
    requires Distinct(rest) && forall q :: q in rest ==> q.id != first.id
    ensures Distinct([first] + rest)
  {
    var out := [first] + rest;
    forall i, j | 0 <= i < j < |out| ensures out[i].id != out[j].id {
      assert out[j] == rest[j - 1] && rest[j - 1] in rest;
      if i > 0 {
        assert out[i] == rest[i - 1];
      }
    }
  }

  lemma {:induction false} HoldsOne(t: Table, u: Table, rows: seq<Record>)
    requires Holds(t, rows) && Holds(u, rows)
    ensures t == u
  {
    forall id ensures id in t <==> id in u {}
    forall id | id in t ensures t[id] == u[id] {
      assert Record(id, t[id]) in rows;
    }
  }

  lemma {:induction false} HoldsPut(t: Table, rows: seq<Record>, r: Record)
    requires Distinct(rows) && Holds(t, rows)
    ensures Holds(t[r.id := r.row], Put(rows, r))
  {
    hide Distinct, Put;
    PutFacts(rows, r);
  }

  lemma {:induction false} ViewHolds(rows: seq<Record>)
    requires Distinct(rows)
    ensures Holds(View(rows), rows)
  {
    if rows != [] {
      var init, last := rows[..|rows| - 1], rows[|rows| - 1];
      ViewHolds(init);
      assert rows == init + [last];
      forall q | q in init ensures q.id != last.id {}
    }
  }

  /** Assigning in the ordered dictionary is assigning in the table it stands for. */
  lemma {:induction false} ViewOfPut(rows: seq<Record>, r: Record)
    requires Distinct(rows)
    ensures View(Put(rows, r)) == View(rows)[r.id := r.row]
  {
    hide Distinct, Put, View, Holds;
    PutFacts(rows, r);
    ViewHolds(rows);
    ViewHolds(Put(rows, r));
    HoldsPut(View(rows), rows, r);
    HoldsOne(View(Put(rows, r)), View(rows)[r.id := r.row], Put(rows, r));
  }

  // ----- writing the file and reading it back -----

  lemma {:induction false} PutNew(rows: seq<Record>, r: Record)
    requires forall q :: q in rows ==> q.id != r.id
    ensures Put(rows, r) == rows + [r]
  {
    if rows != [] {
      assert rows[0] in rows;
      PutNew(rows[1..], r);
    }
  }

  /** What was written for a dictionary reads back as that dictionary. */
  lemma {:induction false} LoadOfEntries(rows: seq<Record>)
    requires Distinct(rows)
    ensures Load(Entries(rows)) == Some(rows)
  {
    if rows != [] {
      var init, last := rows[..|rows| - 1], rows[|rows| - 1];
      LoadOfEntries(init);
      assert Entries(rows)[..|rows| - 1] == Entries(init);
      forall q | q in init ensures q.id != last.id {}
      PutNew(init, last);
      assert rows == init + [last];
    }
  }

  /** The file after one pass through the locked section; a file that cannot be loaded is left as it is. */
  function Rewrite(lines: seq<Line>, rec: Record): seq<Line> {
    var rows := Load(lines);
    if rows.Some? then Entries(Put(rows.value, rec)) else lines
  }

  /** One pass after the other, with nobody else around. */
  function Replay(lines: seq<Line>, recs: seq<Record>): seq<Line> {
    if recs == [] then lines else Rewrite(Replay(lines, recs[..|recs| - 1]), recs[|recs| - 1])
  }

  function Stored(lines: seq<Line>): Table {
    if Load(lines).Some? then View(Load(lines).value) else map[]
  }

  /** Passing through the locked section again and again overrides the stored table by the records, in that order. */
  lemma {:induction false} ReplayIsOverride(lines: seq<Line>, recs: seq<Record>)
    requires Load(lines).Some?
    ensures Load(Replay(lines, recs)).Some?
    ensures Stored(Replay(lines, recs)) == Override(Stored(lines), recs)
  {
    hide Distinct, Put, View, Entries, Load;
    if recs != [] {
      var init, last := recs[..|recs| - 1], recs[|recs| - 1];
      ReplayIsOverride(lines, init);
      var rows := Load(Replay(lines, init)).value;
      PutFacts(rows, last);
      LoadOfEntries(Put(rows, last));
      ViewOfPut(rows, last);
    }
  }

  class ResultsFile {
    var lines: seq<Line>

    constructor (onDisk: seq<Line>)
      ensures lines == onDisk
    {
      lines := onDisk;
    }

    /** `_load_rows`; none stands for the exception on a line that is JSON but no object. */
    method LoadRows() returns (rows: Option<seq<Record>>)
      ensures rows == Load(lines)
    {
      var merged: seq<Record> := [];
      for n := 0 to |lines|
        invariant Load(lines[..n]) == Some(merged)
      {
        assert lines[..n + 1][..n] == lines[..n];
        match lines[n] {
          case Skipped =>
          case Unusable =>
            UnusableFile(lines, n);
            return None;
          case Entry(rec) => merged := Put(merged, rec);
        }
      }
      assert lines[..|lines|] == lines;
      rows := Some(merged);
    }

    /** The locked section of `one`: load, assign, truncate, write line by line. */
    method Store(rec: Record) returns (ok: bool)
      modifies this
      ensures ok <==> Load(old(lines)).Some?
      ensures lines == Rewrite(old(lines), rec)
      ensures ok ==> Load(lines).Some? && Stored(lines) == Stored(old(lines))[rec.id := rec.row]
    {
      var loaded := LoadRows();
      if loaded.None? {
        return false;
      }
      var merged := Put(loaded.value, rec);
      lines := [];
      for n := 0 to |merged|
        invariant lines == Entries(merged[..n])
      {
        lines := lines + [Entry(merged[n])];
      }
      assert merged[..|merged|] == merged;
      PutFacts(loaded.value, rec);
      LoadOfEntries(merged);
      ViewOfPut(loaded.value, rec);
      ok := true;
    }
  }

  lemma {:induction false} UnusableFile(lines: seq<Line>, n: nat)
    requires n < |lines| && lines[n] == Unusable
    ensures Load(lines).None?
    decreases |lines| - n
  {
    if n < |lines| - 1 {
      UnusableFile(lines[..|lines| - 1], n);
    }
  }

  // ----- resuming -----

  predicate Settled(row: V.Row) {
    row.complete && row.category.Some?
  }

  /** The documents of the manifest that a run works on. */
  function Todo(entries: seq<string>, done: Table): seq<string> {
    if entries == [] then []
    else
      (if entries[0] in done && Settled(done[entries[0]]) then [] else [entries[0]]) + Todo(entries[1..], done)
  }

  lemma {:induction false} TodoMembers(entries: seq<string>, done: Table)
    ensures forall id :: id in Todo(entries, done) <==> id in entries && !(id in done && Settled(done[id]))
  {
    if entries != [] {
      TodoMembers(entries[1..], done);
    }
  }

  /** The row says COMPLETE and has one of the four categories. */
  ghost predicate Completed(row: V.Row) {
    row.complete && row.category in {Some(V.Pass), Some(V.ExpectedReject), Some(V.NotApplicable), Some(V.ContractFailure)}
  }

  lemma {:induction false} SettledIsCompleted(row: V.Row)
    ensures Settled(row) <==> Completed(row)
  {
    if row.category.Some? {
      var c := row.category.value;
      assert c.Pass? || c.ExpectedReject? || c.NotApplicable? || c.ContractFailure?;
    }
  }

  /** A resumed run works on exactly the documents of the manifest that have no completed row. */
  lemma {:induction false} TodoExactly(entries: seq<string>, done: Table, id: string)
    ensures id in Todo(entries, done) <==> id in entries && !(id in done && Completed(done[id]))
  {
    hide Settled, Completed;
    TodoMembers(entries, done);
    if id in done {
      SettledIsCompleted(done[id]);
    }
  }

  /** And a row that `run_one` has returned is worked on again if and only if it has no category. */
  lemma {:induction false} ReturnedAgain(t: V.Tools, job: V.Job, e: V.Adversary, entries: seq<string>, done: Table, id: string)
    requires id in entries && id in done && V.Outcome(t, job, e) == V.Finished(done[id])
    ensures id in Todo(entries, done) <==> done[id].category.None?
  {
    TodoMembers(entries, done);
    assert V.CompleteIffDecided(V.Outcome(t, job, e));
  }

  // ----- workers -----

  /** Where the call of `one` for a document stands. */
  datatype Phase =
    | Waiting | Computed(rec: Record) | Entered(rec: Record) | Merged(rec: Record, rows: seq<Record>)
    | Writing(rec: Record, rows: seq<Record>, written: nat) | Done(rec: Record) | Dropped
  {
    predicate Inside() {
      Entered? || Merged? || Writing?
    }
  }

  /** The file, the lock's owner, every document's call, and the records that have passed the locked section, in order. */
  datatype State = State(file: seq<Line>, lock: Option<nat>, calls: seq<Phase>, passed: seq<Record>)

  ghost predicate Initial(todo: seq<string>, s: State) {
    s.lock == None && s.passed == [] && |s.calls| == |todo| && forall i :: 0 <= i < |s.calls| ==> s.calls[i] == Waiting
  }

  /** One step of call `i`: any result for its document, an exception or a cancellation, or a step of the locked section. */
  ghost predicate Step(todo: seq<string>, s: State, t: State, i: nat)
    requires |s.calls| == |todo|
  {
    i < |todo| &&
    match s.calls[i]
    case Waiting =>
      t == s.(calls := s.calls[i := Dropped])
      || (&& |t.calls| == |todo| && t.calls[i].Computed? && t.calls[i].rec.id == todo[i]
          && t == s.(calls := s.calls[i := t.calls[i]]))
    case Computed(rec) =>
      s.lock.None? && t == s.(calls := s.calls[i := Entered(rec)], lock := Some(i))
    case Entered(rec) =>
      var rows := Load(s.file);
      if rows.None? then t == s.(calls := s.calls[i := Dropped], lock := None)
      else t == s.(calls := s.calls[i := Merged(rec, Put(rows.value, rec))])
    case Merged(rec, rows) =>
      t == s.(calls := s.calls[i := Writing(rec, rows, 0)], file := [])
    case Writing(rec, rows, n) =>
      if n < |rows| then t == s.(calls := s.calls[i := Writing(rec, rows, n + 1)], file := s.file + [Entry(rows[n])])
      else t == s.(calls := s.calls[i := Done(rec)], lock := None, passed := s.passed + [rec])
    case Done(_) => false
    case Dropped => false
  }

  ghost predicate Next(todo: seq<string>, s: State, t: State) {
    |s.calls| == |todo| && exists i :: Step(todo, s, t, i)
  }

  ghost predicate Linked(todo: seq<string>, run: seq<State>, k: nat)
    requires k + 1 < |run|
  {
    Next(todo, run[k], run[k + 1])
  }

  /** A run: any number of calls, their steps interleaved in any way. */
  ghost predicate Run(todo: seq<string>, run: seq<State>) {
    run != [] && Initial(todo, run[0]) && forall k :: 0 <= k < |run| - 1 ==> Linked(todo, run, k)
  }

  /** The state a run has come to. */
  ghost function Final(run: seq<State>): State
    requires run != []
  {
    run[|run| - 1]
  }

  // ----- what every step keeps -----

  ghost predicate Owned(todo: seq<string>, s: State) {
    && |s.calls| == |todo|
    && (forall i: nat :: i < |todo| ==> (s.calls[i].Inside() <==> s.lock == Some(i)))
    && (s.lock.Some? ==> s.lock.value < |todo|)
    && (forall i :: 0 <= i < |todo| && !s.calls[i].Waiting? && !s.calls[i].Dropped? ==> s.calls[i].rec.id == todo[i])
  }

  ghost predicate Passed(s: State) {
    && (forall i :: 0 <= i < |s.calls| && s.calls[i].Done? ==> s.calls[i].rec in s.passed)
    && (forall r :: r in s.passed ==> Done(r) in s.calls)
  }

  /** What the call holding the lock has done so far to the file the passes before it have left. */
  ghost predicate InHand(before: seq<Line>, p: Phase, file: seq<Line>) {
    match p
    case Entered(_) => file == before
    case Merged(rec, rows) => file == before && Entries(rows) == Rewrite(before, rec) && Distinct(rows)
    case Writing(rec, rows, n) =>
      n <= |rows| && file == Entries(rows)[..n] && Entries(rows) == Rewrite(before, rec) && Distinct(rows)
    case _ => false
  }

  ghost predicate Inv(todo: seq<string>, first: seq<Line>, s: State) {
    && Owned(todo, s) && Passed(s)
    && var before := Replay(first, s.passed);
       if s.lock.None? then s.file == before else InHand(before, s.calls[s.lock.value], s.file)
  }

  lemma {:induction false} StepOwned(todo: seq<string>, s: State, t: State, i: nat)
    requires Owned(todo, s) && Step(todo, s, t, i)
    ensures Owned(todo, t)
  {
    hide Load, Put;
  }

  lemma {:induction false} StepPassed(todo: seq<string>, s: State, t: State, i: nat)
    requires Owned(todo, s) && Passed(s) && Step(todo, s, t, i)
    ensures Passed(t)
  {
    hide Load, Put;
    forall j | 0 <= j < |t.calls| && t.calls[j].Done? ensures t.calls[j].rec in t.passed {}
    forall r | r in t.passed ensures Done(r) in t.calls {
      if r in s.passed {
        var j :| 0 <= j < |s.calls| && s.calls[j] == Done(r);
        assert t.calls[j] == Done(r);
      } else {
        assert t.calls[i] == Done(r);
      }
    }
  }

  lemma {:induction false} StepKeeps(todo: seq<string>, first: seq<Line>, s: State, t: State, i: nat)
    requires Inv(todo, first, s) && Step(todo, s, t, i)
    ensures Inv(todo, first, t)
  {
    hide Load, Put, Replay, Passed, Distinct, Entries;
    StepOwned(todo, s, t, i);
    StepPassed(todo, s, t, i);
    match s.calls[i] {
      case Entered(rec) =>
        if Load(s.file).Some? {
          PutFacts(Load(s.file).value, rec);
        }
      case Writing(rec, rows, n) =>
        assert Entries(rows)[..|rows|] == Entries(rows);
        if n < |rows| {
          assert Entries(rows)[..n + 1] == Entries(rows)[..n] + [Entry(rows[n])];
        } else {
          ReplayOne(first, s.passed, rec);
        }
      case _ =>
    }
  }

  lemma {:induction false} ReplayOne(lines: seq<Line>, recs: seq<Record>, rec: Record)
    ensures Replay(lines, recs + [rec]) == Rewrite(Replay(lines, recs), rec)
  {
    hide Rewrite;
    assert (recs + [rec])[..|recs|] == recs;
  }

  lemma {:induction false} InitialInv(todo: seq<string>, s: State)
    requires Initial(todo, s)
    ensures Inv(todo, s.file, s)
  {}

  lemma {:induction false} RunKeeps(todo: seq<string>, run: seq<State>)
    requires Run(todo, run)
    ensures Inv(todo, run[0].file, run[|run| - 1])
  {
    hide Inv, Step, Initial;
    if |run| == 1 {
      InitialInv(todo, run[0]);
    } else {
      var n := |run| - 2;
      RunBefore(todo, run);
      RunKeeps(todo, run[..n + 1]);
      assert Linked(todo, run, n);
      var i :| Step(todo, run[n], run[n + 1], i);
      StepKeeps(todo, run[0].file, run[n], run[n + 1], i);
    }
  }

  lemma {:induction false} RunBefore(todo: seq<string>, run: seq<State>)
    requires Run(todo, run) && |run| > 1
    ensures Run(todo, run[..|run| - 1])
  {
    hide Step, Initial;
    var init := run[..|run| - 1];
    forall k | 0 <= k < |init| - 1 ensures Linked(todo, init, k) {
      assert Linked(todo, run, k);
    }
  }

  // ----- what a run does to the file -----

  ghost predicate Different(ids: seq<string>) {
    forall i, j :: 0 <= i < j < |ids| ==> ids[i] != ids[j]
  }

  /**
   For every interleaving of any number of calls: whenever nobody holds the lock, the file is the one that the records
   of the finished calls leave when they pass the locked section one after the other, and its table is the table
   before the run overridden by exactly those records.
   */
  lemma {:induction false} EveryInterleaving(todo: seq<string>, run: seq<State>)
    requires Run(todo, run) && Final(run).lock.None? && Load(run[0].file).Some?
    ensures var last := Final(run);
            && last.file == Replay(run[0].file, last.passed)
            && Load(last.file).Some? && Stored(last.file) == Override(Stored(run[0].file), last.passed)
            && (forall r :: r in last.passed <==> Done(r) in last.calls)
  {
    hide Replay, Stored, Override, Owned, Load;
    RunKeeps(todo, run);
    var last := Final(run);
    ReplayIsOverride(run[0].file, last.passed);
    forall r | Done(r) in last.calls ensures r in last.passed {
      var i :| 0 <= i < |last.calls| && last.calls[i] == Done(r);
    }
  }

  lemma {:induction false} OverrideFacts(start: Table, recs: seq<Record>)
    requires forall a, b :: a in recs && b in recs && a.id == b.id ==> a == b
    ensures forall r :: r in recs ==> r.id in Override(start, recs) && Override(start, recs)[r.id] == r.row
    ensures forall id: string :: (forall r :: r in recs ==> r.id != id) ==>
              (id in Override(start, recs) <==> id in start) && (id in start ==> Override(start, recs)[id] == start[id])
  {
    if recs != [] {
      var init, last := recs[..|recs| - 1], recs[|recs| - 1];
      assert recs == init + [last];
      OverrideFacts(start, init);
    }
  }

  /** A table has the row of every finished call, and agrees with `start` on every other document. */
  ghost predicate Updated(start: Table, t: Table, calls: seq<Phase>) {
    && (forall r :: Done(r) in calls ==> r.id in t && t[r.id] == r.row)
    && (forall id: string :: (forall r :: Done(r) in calls ==> r.id != id) ==>
          (id in t <==> id in start) && (id in start ==> t[id] == start[id]))
  }

  /** With every document called once, no update is lost and no other document's row changes. */
  lemma {:induction false} NothingLost(todo: seq<string>, run: seq<State>)
    requires Run(todo, run) && Final(run).lock.None? && Load(run[0].file).Some? && Different(todo)
    ensures Updated(Stored(run[0].file), Stored(Final(run).file), Final(run).calls)
  {
    hide Load, Replay, Stored, Override, Linked, Initial;
    EveryInterleaving(todo, run);
    RunKeeps(todo, run);
    var last := Final(run);
    OneRecordEach(todo, last);
    OverrideFacts(Stored(run[0].file), last.passed);
  }

  lemma {:induction false} OneRecordEach(todo: seq<string>, s: State)
    requires Owned(todo, s) && Passed(s) && Different(todo)
    ensures forall a, b :: a in s.passed && b in s.passed && a.id == b.id ==> a == b
  {
    forall a, b | a in s.passed && b in s.passed && a.id == b.id ensures a == b {
      var i :| 0 <= i < |s.calls| && s.calls[i] == Done(a);
      var j :| 0 <= j < |s.calls| && s.calls[j] == Done(b);
    }
  }

  lemma {:induction false} TodoDifferent(entries: seq<string>, done: Table)
    requires Different(entries)
    ensures Different(Todo(entries, done))
  {
    if entries != [] {
      var rest, todo := Todo(entries[1..], done), Todo(entries, done);
      TodoDifferent(entries[1..], done);
      TodoMembers(entries[1..], done);
      forall i, j | 0 <= i < j < |todo| ensures todo[i] != todo[j] {
        assert todo == rest || todo == [entries[0]] + rest;
        assert todo[j] in rest;
      }
    }
  }

  /** A resumed run leaves every settled row as it found it. */
  lemma {:induction false} SettledRowsStay(entries: seq<string>, run: seq<State>, id: string)
    requires run != [] && Different(entries) && Load(run[0].file).Some? && Run(Todo(entries, Stored(run[0].file)), run)
    requires Final(run).lock.None?
    requires id in Stored(run[0].file) && Completed(Stored(run[0].file)[id])
    ensures id in Stored(Final(run).file) && Stored(Final(run).file)[id] == Stored(run[0].file)[id]
  {
    hide Load, Stored, Todo, Completed, Linked, Initial, Different;
    var start, last := Stored(run[0].file), Final(run);
    var todo := Todo(entries, start);
    TodoDifferent(entries, start);
    NothingLost(todo, run);
    RunKeeps(todo, run);
    TodoExactly(entries, start, id);
    forall r | Done(r) in last.calls ensures r.id != id {
      DoneIsTodo(todo, last, r);
    }
  }

  lemma {:induction false} DoneIsTodo(todo: seq<string>, s: State, r: Record)
    requires Owned(todo, s) && Done(r) in s.calls
    ensures r.id in todo
  {
    var i :| 0 <= i < |s.calls| && s.calls[i] == Done(r);
    assert todo[i] == r.id;
  }

  /** A call for the document is done with a row that is not completed. */
  ghost predicate LeftOpen(calls: seq<Phase>, id: string) {
    exists r :: Done(r) in calls && r.id == id && !Completed(r.row)
  }

  /** Once every call is done, a further resume works on exactly the documents whose new row is not completed. */
  lemma {:induction false} NextResume(entries: seq<string>, run: seq<State>, id: string)
    requires run != [] && Different(entries) && Load(run[0].file).Some? && Run(Todo(entries, Stored(run[0].file)), run)
    requires Final(run).lock.None? && forall i :: 0 <= i < |Final(run).calls| ==> Final(run).calls[i].Done?
    ensures id in Todo(entries, Stored(Final(run).file)) <==>
            LeftOpen(Final(run).calls, id)
  {
    hide Load, Stored, Todo, Completed, Linked, Initial, Different;
    var start, last := Stored(run[0].file), Final(run);
    var todo := Todo(entries, start);
    TodoDifferent(entries, start);
    NothingLost(todo, run);
    RunKeeps(todo, run);
    TodoExactly(entries, start, id);
    TodoExactly(entries, Stored(last.file), id);
    forall r | Done(r) in last.calls ensures r.id in todo {
      DoneIsTodo(todo, last, r);
    }
    if id in todo {
      var i :| 0 <= i < |todo| && todo[i] == id;
      assert last.calls[i] == Done(last.calls[i].rec) && last.calls[i] in last.calls;
    }
  }

  /**
   What the lock does not protect: a process that stops while a call is rewriting the file leaves a prefix of the
   dictionary, so every row that was still to be written is gone, settled or not.
   */
  lemma {:induction false} StoppedWhileWriting(todo: seq<string>, run: seq<State>, i: nat)
    requires Run(todo, run) && i < |todo|
    requires |Final(run).calls| == |todo| && Final(run).calls[i].Writing?
    ensures var s := Final(run);
            var p := s.calls[i];
            p.written <= |p.rows|
            && Load(s.file) == Some(p.rows[..p.written])
            && forall q :: q in p.rows[p.written..] ==> q.id !in Stored(s.file)
  {
    hide Load, Put, Replay, Linked, Initial, Rewrite, View;
    RunKeeps(todo, run);
    var s := Final(run);
    var p := s.calls[i];
    assert s.lock == Some(i);
    var kept := p.rows[..p.written];
    assert s.file == Entries(kept);
    LoadOfEntries(kept);
    ViewHolds(kept);
    forall q | q in p.rows[p.written..] ensures q.id !in View(kept) {
      forall r | r in kept ensures r.id != q.id {}
    }
  }

  const SETTLED: V.Row := V.Row(true, Some(V.Pass), "done")

  /**
   It does happen to a settled row: document `a` is settled, the call for `b` has truncated the file, and the process
   stops there.
   */
  lemma {:induction false} SettledRowLost() returns (run: seq<State>)
    ensures Run(["b"], run)
    ensures "a" in Stored(run[0].file) && Completed(Stored(run[0].file)["a"]) && "a" !in Stored(Final(run).file)
  {
    hide Load, Put, Stored, View;
    var a, b := Record("a", SETTLED), Record("b", SETTLED);
    var file, rows := [Entry(a)], [a, b];
    StoredRows(a, b);
    var s0 := State(file, None, [Waiting], []);
    var s1 := s0.(calls := [Computed(b)]);
    var s2 := s0.(calls := [Entered(b)], lock := Some(0));
    var s3 := s0.(calls := [Merged(b, rows)], lock := Some(0));
    var s4 := State([], Some(0), [Writing(b, rows, 0)], []);
    run := [s0, s1, s2, s3, s4];
    assert Step(["b"], s0, s1, 0) && Step(["b"], s1, s2, 0);
    assert Step(["b"], s2, s3, 0) && Step(["b"], s3, s4, 0);
    forall k | 0 <= k < |run| - 1 ensures Linked(["b"], run, k) {
      assert k == 0 || k == 1 || k == 2 || k == 3;
    }
  }

  lemma {:induction false} StoredRows(a: Record, b: Record)
    requires a.id == "a" && b.id == "b" && a.row == SETTLED
    ensures Load([Entry(a)]) == Some([a]) && Put([a], b) == [a, b]
    ensures "a" in Stored([Entry(a)]) && Completed(Stored([Entry(a)])["a"]) && "a" !in Stored([])
  {
    assert Entries([a]) == [Entry(a)];
    LoadOfEntries([a]);
    assert [a][1..] == [] && Put([], b) == [b];
    assert [a][..0] == [] && View([]) == map[] && View([a]) == map["a" := SETTLED];
  }
}
