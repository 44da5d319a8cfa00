/**
 The migration runner and the read-only verifier of its ledger.
 Every statement may be the last one before the connection is lost; what was executed stays.
 The module proves where any number of interrupted attempts and one completed run lead.
 */
module MigrationLedger {
  import opened Results
  import opened MigrationFiles

  /** The checksum column: absent, present with another definition, or CHAR(64) NOT NULL. */
  datatype Column = MissingColumn | LooseColumn | StrictColumn

  type Rows = map<string, Option<string>>

  datatype Ledger = NoTable | Table(rows: Rows, column: Column)

  datatype Failure =
    | LockTimeout | ConnectionLost | DuplicateVersions | FileMissing | BadChecksum | ChecksumMismatch | SchemaRejected

  function RowsOf(l: Ledger): Rows {
    if l.Table? then l.rows else map[]
  }

  /** Without the column no row has a checksum; under NOT NULL every row has one. */
  predicate ValidLedger(l: Ledger) {
    && (l.Table? && l.column.MissingColumn? ==> forall v | v in l.rows :: l.rows[v].None?)
    && (l.Table? && l.column.StrictColumn? ==> forall v | v in l.rows :: l.rows[v].Some?)
  }

  /** The ledger the files call for: each version with its digest. */
  function Expected(ms: seq<Migration>): Rows {
    map v | v in Versions(ms) :: Some(DigestOf(ms, v))
  }

  function DigestOf(ms: seq<Migration>, v: string): string
    requires v in Versions(ms)
  {
    if ms[0].version == v then ms[0].digest else DigestOf(ms[1..], v)
  }

  function Pending(ms: seq<Migration>, applied: set<string>): seq<Migration> {
    if ms == [] then []
    else if ms[0].version in applied then Pending(ms[1..], applied)
    else [ms[0]] + Pending(ms[1..], applied)
  }

  function Names(ms: seq<Migration>): (vs: seq<string>)
    ensures |vs| == |ms|
  {
    seq(|ms|, i requires 0 <= i < |ms| => ms[i].version)
  }

  // ----- What an attempt may do -----

  predicate Backfilled(before: Rows, after: Rows, ms: seq<Migration>) {
    && before.Keys <= after.Keys
    && forall v | v in before :: after[v] == before[v] ||
        (before[v].None? && v in Versions(ms) && after[v] == Expected(ms)[v])
  }

  predicate Matches(rows: Rows, ms: seq<Migration>) {
    forall v | v in rows :: v in Versions(ms) && rows[v] == Expected(ms)[v]
  }

  /** The rows with the first n pending migrations recorded. */
  predicate Recorded(before: Rows, after: Rows, ms: seq<Migration>, n: nat) {
    var todo := Pending(ms, before.Keys);
    && n <= |todo|
    && after.Keys == before.Keys + Versions(todo[..n])
    && (forall v | v in Versions(todo[..n]) :: v in Versions(ms) && after[v] == Expected(ms)[v])
  }

  /** An attempt, interrupted or not: checksums filled in, and a prefix of the pending migrations recorded. */
  predicate Attempt(before: Ledger, after: Ledger, ms: seq<Migration>, n: nat) {
    && ValidLedger(after)
    && Backfilled(RowsOf(before), RowsOf(after), ms)
    && Recorded(RowsOf(before), RowsOf(after), ms, n)
  }

  // ----- When an attempt returns -----

  /** Every recorded row has a file, and its checksum, if it has one, is that file's. */
  predicate Acceptable(rows: Rows, ms: seq<Migration>) {
    forall v | v in rows :: v in Versions(ms) && (rows[v].None? || rows[v] == Expected(ms)[v])
  }

  /** The rows among these versions that still lack a checksum. */
  function Blank(rows: Rows, versions: set<string>): set<string> {
    set v | v in rows && v in versions && rows[v].None?
  }

  /** The statements that make the table and its column, look at the column, and later repair it. */
  function PrepareCost(l: Ledger): nat {
    if l.Table? && l.column.MissingColumn? then 3 else 2
  }

  function RepairCost(l: Ledger): nat {
    if l.Table? && !l.column.StrictColumn? then 1 else 0
  }

  function CheckCost(rows: Rows): nat {
    1 + |Blank(rows, rows.Keys)|
  }

  /** Each pending migration takes its own statements, counted as one, and the insert. */
  function ApplyCost(todo: seq<Migration>): nat {
    2 * |todo|
  }

  function AttemptCost(l: Ledger, ms: seq<Migration>): nat {
    PrepareCost(l) + CheckCost(RowsOf(l)) + RepairCost(l) + ApplyCost(Pending(ms, RowsOf(l).Keys))
  }

  lemma BlankGrows(rows: Rows, versions: set<string>, v: string)
    requires v in rows && v !in versions
    ensures |Blank(rows, versions + {v})| == |Blank(rows, versions)| + if rows[v].None? then 1 else 0
    ensures |Blank(rows, versions + {v})| <= |Blank(rows, rows.Keys)|
  {
    assert Blank(rows, versions + {v}) == Blank(rows, versions) + if rows[v].None? then {v} else {};
    BlankShrinks(Blank(rows, versions + {v}), Blank(rows, rows.Keys));
  }

  lemma {:induction false} BlankShrinks(a: set<string>, b: set<string>)
    requires a <= b
    ensures |a| <= |b|
  {
    if a != {} {
      var v :| v in a;
      BlankShrinks(a - {v}, b - {v});
    }
  }

  // ----- Facts about pending migrations -----

  lemma {:induction false} PendingIsUnapplied(ms: seq<Migration>, applied: set<string>)
    ensures forall m :: m in Pending(ms, applied) <==> m in ms && m.version !in applied
  {
    if ms != [] {
      PendingIsUnapplied(ms[1..], applied);
      assert ms == [ms[0]] + ms[1..];
    }
  }

  lemma PendingKeepsOrder(ms: seq<Migration>, applied: set<string>)
    ensures Ascending(ms) ==> Ascending(Pending(ms, applied))
    ensures Distinct(ms) ==> Distinct(Pending(ms, applied))
  {
    hide Ascending, Distinct, Pending;
    if Ascending(ms) {
      PendingAscends(ms, applied);
    }
    if Distinct(ms) {
      PendingIsDistinct(ms, applied);
    }
  }

  /** A migration pending in the tail is one of the later ones. */
  lemma PendingInTail(ms: seq<Migration>, applied: set<string>, k: nat) returns (i: nat)
    requires ms != [] && k < |Pending(ms[1..], applied)|
    ensures 0 < i < |ms| && ms[i] == Pending(ms[1..], applied)[k]
  {
    var tail, rest := ms[1..], Pending(ms[1..], applied);
    PendingIsUnapplied(tail, applied);
    assert rest[k] in rest;
    var j :| 0 <= j < |tail| && tail[j] == rest[k];
    i := j + 1;
  }

  lemma {:induction false} PendingAscends(ms: seq<Migration>, applied: set<string>)
    requires Ascending(ms)
    ensures Ascending(Pending(ms, applied))
  {
    hide Before;
    if ms != [] {
      var tail, rest := ms[1..], Pending(ms[1..], applied);
      assert forall i | 0 <= i < |tail| :: tail[i] == ms[i + 1];
      PendingAscends(tail, applied);
      forall k | 0 <= k < |rest|
        ensures Before(ms[0].version, rest[k].version)
      {
        var i := PendingInTail(ms, applied, k);
      }
    }
  }

  lemma {:induction false} PendingIsDistinct(ms: seq<Migration>, applied: set<string>)
    requires Distinct(ms)
    ensures Distinct(Pending(ms, applied))
  {
    if ms != [] {
      var tail, rest := ms[1..], Pending(ms[1..], applied);
      assert forall i | 0 <= i < |tail| :: tail[i] == ms[i + 1];
      PendingIsDistinct(tail, applied);
      forall k | 0 <= k < |rest|
        ensures ms[0].version != rest[k].version
      {
        var i := PendingInTail(ms, applied, k);
      }
    }
  }

  lemma {:induction false} DigestOfMember(ms: seq<Migration>, i: nat)
    requires Distinct(ms) && i < |ms|
    ensures ms[i].version in Versions(ms) && Expected(ms)[ms[i].version] == Some(ms[i].digest)
  {
    if i > 0 {
      var tail := ms[1..];
      assert forall k | 0 <= k < |tail| :: tail[k] == ms[k + 1];
      assert tail[i - 1] == ms[i];
      DigestOfMember(tail, i - 1);
    }
  }

  lemma {:induction false} IrrelevantVersion(ms: seq<Migration>, applied: set<string>, v: string)
    requires v !in Versions(ms)
    ensures Pending(ms, applied + {v}) == Pending(ms, applied)
  {
    if ms != [] {
      TailVersions(ms);
      IrrelevantVersion(ms[1..], applied, v);
    }
  }

  lemma TailVersions(ms: seq<Migration>)
    requires ms != []
    ensures Versions(ms) == {ms[0].version} + Versions(ms[1..])
    ensures Distinct(ms) ==> Distinct(ms[1..]) && ms[0].version !in Versions(ms[1..])
  {
    var tail := ms[1..];
    assert forall k | 0 <= k < |tail| :: tail[k] == ms[k + 1];
    forall v | v in Versions(ms)
      ensures v in {ms[0].version} + Versions(tail)
    {
      var i :| 0 <= i < |ms| && ms[i].version == v;
      assert i > 0 ==> tail[i - 1].version == v;
    }
    forall v | v in Versions(tail)
      ensures v in Versions(ms)
    {
      var i :| 0 <= i < |tail| && tail[i].version == v;
      assert ms[i + 1].version == v;
    }
  }

  /** Recording a prefix of the pending migrations leaves exactly the rest pending. */
  lemma {:induction false} PendingAfterPrefix(ms: seq<Migration>, applied: set<string>, n: nat)
    requires Distinct(ms) && n <= |Pending(ms, applied)|
    ensures var todo := Pending(ms, applied);
            Pending(ms, applied + Versions(todo[..n])) == todo[n..]
  {
    var todo := Pending(ms, applied);
    if n == 0 {
      assert applied + Versions(todo[..0]) == applied;
    } else {
      TailVersions(ms);
      if ms[0].version in applied {
        PendingAfterPrefix(ms[1..], applied, n);
      } else {
        var rest := Pending(ms[1..], applied);
        PendingAfterPrefix(ms[1..], applied, n - 1);
        assert todo[..n] == [ms[0]] + rest[..n - 1];
        TailVersions(todo[..n]);
        assert todo[..n][1..] == rest[..n - 1];
        assert applied + Versions(todo[..n]) == applied + Versions(rest[..n - 1]) + {ms[0].version};
        IrrelevantVersion(ms[1..], applied + Versions(rest[..n - 1]), ms[0].version);
      }
    }
  }

  // ----- The runner -----

  class MigrationRunner {
    var ledger: Ledger
    /** How many statements the connection still lasts. */
    var budget: nat
    /** The versions whose own statements were run to the end, in order. */
    var executed: seq<string>

    constructor (ledger: Ledger, budget: nat)
      ensures this.ledger == ledger && this.budget == budget && executed == []
    {
      this.ledger := ledger;
      this.budget := budget;
      this.executed := [];
    }

    method Statement() returns (ok: bool)
      modifies this`budget
      ensures ok <==> old(budget) > 0
      ensures budget == if ok then old(budget) - 1 else 0
    {
      ok := budget > 0;
      if ok {
        budget := budget - 1;
      }
    }

    method PrepareTable() returns (r: Result<bool, Failure>)
      requires ValidLedger(ledger)
      modifies this`ledger, this`budget
      ensures ValidLedger(ledger) && RowsOf(ledger) == RowsOf(old(ledger))
      ensures r.Ok? <==> old(budget) >= PrepareCost(old(ledger))
      ensures r.Ok? ==> ledger.Table? && !ledger.column.MissingColumn? && (!r.value <==> ledger.column.StrictColumn?)
      ensures r.Ok? ==> (r.value <==> RepairCost(old(ledger)) == 1)
      ensures r.Ok? ==> budget == old(budget) - PrepareCost(old(ledger))
      ensures r.Err? ==> r.error == ConnectionLost
    {
      var ok := Statement();
      if !ok {
        return Err(ConnectionLost);
      }
      if ledger.NoTable? {
        ledger := Table(map[], StrictColumn);
      }
      ok := Statement();
      if !ok {
        return Err(ConnectionLost);
      }
      if ledger.column.MissingColumn? {
        ok := Statement();
        if !ok {
          return Err(ConnectionLost);
        }
        ledger := Table(ledger.rows, LooseColumn);
        return Ok(true);
      }
      return Ok(!ledger.column.StrictColumn?);
    }

    /** One recorded row: it is its file's digest already, or has none and takes it. */
    method CheckRecordedRow(ms: seq<Migration>, v: string) returns (failure: Option<Failure>)
      requires ValidLedger(ledger) && ledger.Table? && !ledger.column.MissingColumn? && v in ledger.rows
      modifies this`ledger, this`budget
      ensures ValidLedger(ledger) && ledger.Table? && ledger.column == old(ledger).column
      ensures var row, blank := old(ledger).rows[v], old(ledger).rows[v].None?;
              && (failure.None? <==>
                    v in Versions(ms) && if blank then old(budget) > 0 else row == Expected(ms)[v])
              && (failure.None? ==>
                    && v in Versions(ms)
                    && ledger.rows == old(ledger).rows[v := Expected(ms)[v]]
                    && budget == old(budget) - if blank then 1 else 0)
              && (failure.Some? ==> ledger == old(ledger))
    {
      if v !in Versions(ms) {
        return Some(FileMissing);
      }
      var expected := DigestOf(ms, v);
      DigestIsChecksum(ms, v);
      if ledger.rows[v].None? {
        var ok := Statement();
        if !ok {
          return Some(ConnectionLost);
        }
        ledger := Table(ledger.rows[v := Some(expected)], ledger.column);
      } else {
        if !IsChecksum(ledger.rows[v].value) {
          return Some(BadChecksum);
        }
        if ledger.rows[v].value != expected {
          return Some(ChecksumMismatch);
        }
      }
      return None;
    }

    /** Compare every recorded row with its file; rows without a checksum take the file's. */
    method CheckRecorded(ms: seq<Migration>) returns (r: Result<set<string>, Failure>)
      requires ValidLedger(ledger) && ledger.Table? && !ledger.column.MissingColumn?
      modifies this`ledger, this`budget
      ensures ValidLedger(ledger) && ledger.Table? && ledger.column == old(ledger).column
      ensures ledger.rows.Keys == old(ledger).rows.Keys && Backfilled(old(ledger).rows, ledger.rows, ms)
      ensures r.Ok? <==> Acceptable(old(ledger).rows, ms) && old(budget) >= CheckCost(old(ledger).rows)
      ensures r.Ok? ==> r.value == ledger.rows.Keys && Matches(ledger.rows, ms)
      ensures r.Ok? ==> budget == old(budget) - CheckCost(old(ledger).rows)
    {
      hide RowsChecked, Backfilled, Matches, Acceptable, Blank, Expected, Versions, ValidLedger;
      RowsCheckedStarts(ledger.rows, ms);
      RowsCheckedFacts(ledger.rows, ledger.rows, ms, {});
      var ok := Statement();
      if !ok {
        return Err(ConnectionLost);
      }
      var rows := ledger.rows;
      var todo, applied: set<string> := rows.Keys, {};
      while todo != {}
        invariant todo <= rows.Keys && applied == rows.Keys - todo
        invariant ledger.Table? && ledger.column == old(ledger).column && ValidLedger(ledger)
        invariant RowsChecked(rows, ledger.rows, ms, applied)
        invariant budget == old(budget) - 1 - |Blank(rows, applied)|
        decreases todo
      {
        var v :| v in todo;
        BlankGrows(rows, applied, v);
        RowsCheckedFacts(rows, ledger.rows, ms, applied);
        RowChecked(rows, ledger.rows, ms, applied, v);
        var failure := CheckRecordedRow(ms, v);
        if failure.Some? {
          RowRefused(rows, ms, v);
          return Err(failure.value);
        }
        applied, todo := applied + {v}, todo - {v};
      }
      assert applied == rows.Keys;
      RowsCheckedFacts(rows, ledger.rows, ms, applied);
      return Ok(applied);
    }

    /** Run each pending migration, then record it. */
    method ApplyPending(ms: seq<Migration>, todo: seq<Migration>)
      returns (r: Result<seq<string>, Failure>, ghost n: nat)
      requires ValidLedger(ledger) && ledger.Table? && !ledger.column.MissingColumn? && Matches(ledger.rows, ms)
      requires Distinct(ms) && todo == Pending(ms, ledger.rows.Keys)
      modifies this
      ensures Progress(old(ledger), ledger, ms, n)
      ensures r.Ok? <==> old(budget) >= ApplyCost(todo)
      ensures r.Ok? ==> r.value == Names(todo) && n == |todo|
      ensures r.Err? ==> r.error == ConnectionLost
      ensures Ran(old(executed), executed, todo, n)
      ensures n == AtMost(old(budget) / 2, |todo|)
      ensures executed == old(executed) + Names(todo[..AtMost((old(budget) + 1) / 2, |todo|)])
    {
      hide Progress, Matches, ValidLedger, Names, Ran;
      var appliedNow: seq<string> := [];
      NamesOf([]);
      ProgressStarts(ledger, ms);
      for k := 0 to |todo|
        invariant Progress(old(ledger), ledger, ms, k)
        invariant appliedNow == Names(todo[..k]) && executed == old(executed) + appliedNow
        invariant budget == old(budget) - 2 * k
      {
        RanSoFar(old(executed), todo, k);
        var ok := Statement();
        if !ok {
          return Err(ConnectionLost), k;
        }
        executed := executed + [todo[k].version];
        OneMoreName(todo, k);
        ok := Statement();
        if !ok {
          return Err(ConnectionLost), k;
        }
        ProgressStep(old(ledger), ledger, ms, k);
        ledger := Table(ledger.rows[todo[k].version := Some(todo[k].digest)], ledger.column);
        appliedNow := appliedNow + [todo[k].version];
      }
      RanSoFar(old(executed), todo, |todo|);
      assert todo[..|todo|] == todo;
      return Ok(appliedNow), |todo|;
    }

    /**
     One attempt. It returns exactly when it gets the lock, versions are distinct, every recorded row
     is acceptable, the connection lasts, and the schema is accepted. Whatever interrupts it, the
     ledger changes only as an attempt may; when it returns, the ledger is what the files call for
     and the result lists what was not recorded before.
     */
    method RunMigrations(files: seq<File>, lockAcquired: bool, schemaAccepted: bool)
      returns (r: Result<seq<string>, Failure>, ghost n: nat)
      requires ValidLedger(ledger)
      modifies this
      ensures ValidLedger(ledger)
      ensures r.Ok? <==>
                && lockAcquired && Distinct(Versioned(files)) && schemaAccepted
                && Acceptable(RowsOf(old(ledger)), Sorted(Versioned(files)))
                && old(budget) >= AttemptCost(old(ledger), Sorted(Versioned(files)))
      ensures var ms := Sorted(Versioned(files));
              && (Distinct(Versioned(files)) ==> Attempt(old(ledger), ledger, ms, n))
              && (!Distinct(Versioned(files)) ==>
                    r.Err? && RowsOf(ledger) == RowsOf(old(ledger)) && executed == old(executed))
              && Ran(old(executed), executed, Pending(ms, RowsOf(old(ledger)).Keys), n)
              && (r.Ok? ==>
                    && RowsOf(ledger) == Expected(ms) && ledger.Table? && ledger.column.StrictColumn?
                    && r.value == Names(Pending(ms, RowsOf(old(ledger)).Keys))
                    && n == |r.value|)
    {
      ghost var start := ledger;
      ghost var target := Sorted(Versioned(files));
      NoProgress(start, ledger, target);
      n := 0;
      NothingRan(executed, Pending(target, RowsOf(start).Keys));
      if !lockAcquired {
        return Err(LockTimeout), n;
      }
      var repair := PrepareTable();
      NoProgress(start, ledger, target);
      if repair.Err? {
        return Err(repair.error), n;
      }
      var discovered := DiscoverMigrations(files);
      if discovered.Err? {
        return Err(DuplicateVersions), n;
      }
      var ms := discovered.value;
      var checked := CheckRecorded(ms);
      NoProgress(start, ledger, ms);
      if checked.Err? {
        return Err(checked.error), n;
      }
      if repair.value {
        var ok := Statement();
        if !ok {
          return Err(ConnectionLost), n;
        }
        ledger := Table(ledger.rows, StrictColumn);
        NoProgress(start, ledger, ms);
      }
      ghost var before := ledger;
      var applied: Result<seq<string>, Failure>;
      applied, n := ApplyPending(ms, Pending(ms, checked.value));
      assert Attempt(start, ledger, ms, n);
      if applied.Err? {
        return Err(applied.error), n;
      }
      RecordedAllIsExpected(before.rows, ledger.rows, ms);
      if !schemaAccepted {
        return Err(SchemaRejected), n;
      }
      return Ok(applied.value), n;
    }
  }

  /** The rows looked at so far have their file's digest, and had it or none; the others stand as they were. */
  predicate RowsChecked(rows: Rows, now: Rows, ms: seq<Migration>, applied: set<string>) {
    && now.Keys == rows.Keys
    && forall v | v in rows ::
         if v in applied
         then v in Versions(ms) && now[v] == Expected(ms)[v] && (rows[v].None? || rows[v] == Expected(ms)[v])
         else now[v] == rows[v]
  }

  lemma RowsCheckedStarts(rows: Rows, ms: seq<Migration>)
    ensures RowsChecked(rows, rows, ms, {}) && Blank(rows, {}) == {}
  {
  }

  lemma RowRefused(rows: Rows, ms: seq<Migration>, v: string)
    requires v in rows
    ensures !(v in Versions(ms) && (rows[v].None? || rows[v] == Expected(ms)[v])) ==> !Acceptable(rows, ms)
  {
  }

  lemma RowChecked(rows: Rows, now: Rows, ms: seq<Migration>, applied: set<string>, v: string)
    requires RowsChecked(rows, now, ms, applied) && v in rows && v !in applied
    ensures now[v] == rows[v]
    ensures v in Versions(ms) && (rows[v].None? || rows[v] == Expected(ms)[v]) ==>
      RowsChecked(rows, now[v := Expected(ms)[v]], ms, applied + {v})
  {
    hide Expected, Versions;
  }

  lemma RowsCheckedFacts(rows: Rows, now: Rows, ms: seq<Migration>, applied: set<string>)
    requires RowsChecked(rows, now, ms, applied)
    ensures now.Keys == rows.Keys && Backfilled(rows, now, ms)
    ensures applied == rows.Keys ==> Acceptable(rows, ms) && Matches(now, ms)
  {
    hide Expected, Versions;
  }

  lemma NoProgress(before: Ledger, after: Ledger, ms: seq<Migration>)
    requires ValidLedger(after) && RowsOf(after).Keys == RowsOf(before).Keys &&
      Backfilled(RowsOf(before), RowsOf(after), ms)
    ensures Attempt(before, after, ms, 0)
  {
    assert Versions(Pending(ms, RowsOf(before).Keys)[..0]) == {};
  }

  function AtMost(n: nat, limit: nat): nat {
    if n < limit then n else limit
  }

  /** The statements of the first n migrations were run, of no other but perhaps the next. */
  ghost predicate Ran(before: seq<string>, now: seq<string>, todo: seq<Migration>, n: nat) {
    exists m: nat :: n <= m <= n + 1 && m <= |todo| && now == before + Names(todo[..m])
  }

  lemma NothingRan(executed: seq<string>, todo: seq<Migration>)
    ensures Ran(executed, executed, todo, 0)
  {
    assert executed + Names(todo[..0]) == executed;
  }

  lemma OneMoreName(todo: seq<Migration>, k: nat)
    requires k < |todo|
    ensures Names(todo[..k + 1]) == Names(todo[..k]) + [todo[k].version]
  {
    assert todo[..k + 1] == todo[..k] + [todo[k]];
    NamesOf(todo[..k + 1]);
  }

  lemma RanSoFar(before: seq<string>, todo: seq<Migration>, k: nat)
    requires k <= |todo|
    ensures Ran(before, before + Names(todo[..k]), todo, k)
    ensures k < |todo| ==> Ran(before, before + Names(todo[..k]) + [todo[k].version], todo, k)
  {
    if k < |todo| {
      assert todo[..k + 1] == todo[..k] + [todo[k]];
      NamesOf(todo[..k + 1]);
      assert before + Names(todo[..k]) + [todo[k].version] == before + Names(todo[..k + 1]);
    }
  }

  lemma NamesOf(ms: seq<Migration>)
    ensures ms == [] ==> Names(ms) == []
    ensures ms != [] ==> Names(ms) == Names(ms[..|ms| - 1]) + [ms[|ms| - 1].version]
  {
  }

  /** The first n pending migrations are recorded, and nothing else changed. */
  ghost predicate Progress(before: Ledger, now: Ledger, ms: seq<Migration>, n: nat) {
    && before.Table? && now.Table? && now.column == before.column && !now.column.MissingColumn? && ValidLedger(now)
    && (forall v | v in before.rows :: v in now.rows && now.rows[v] == before.rows[v])
    && Recorded(before.rows, now.rows, ms, n)
    && Matches(now.rows, ms)
  }

  lemma ProgressStarts(l: Ledger, ms: seq<Migration>)
    requires l.Table? && !l.column.MissingColumn? && ValidLedger(l) && Matches(l.rows, ms)
    ensures Progress(l, l, ms, 0)
  {
    assert Versions(Pending(ms, l.rows.Keys)[..0]) == {};
  }

  lemma PendingEntry(ms: seq<Migration>, applied: set<string>, k: nat)
    requires Distinct(ms) && k < |Pending(ms, applied)|
    ensures var todo := Pending(ms, applied);
            && todo[k].version !in applied && todo[k].version !in Versions(todo[..k])
            && Versions(todo[..k + 1]) == Versions(todo[..k]) + {todo[k].version}
            && todo[k].version in Versions(ms) && Expected(ms)[todo[k].version] == Some(todo[k].digest)
  {
    hide Pending, Ascending, Expected;
    var todo := Pending(ms, applied);
    PendingIsUnapplied(ms, applied);
    PendingIsDistinct(ms, applied);
    assert todo[k] in todo;
    var i: nat :| i < |ms| && ms[i] == todo[k];
    DigestOfMember(ms, i);
    assert todo[..k + 1] == todo[..k] + [todo[k]];
    VersionsOfSnoc(todo[..k], todo[k]);
  }

  lemma ProgressStep(before: Ledger, now: Ledger, ms: seq<Migration>, k: nat)
    requires Distinct(ms) && Progress(before, now, ms, k) && k < |Pending(ms, before.rows.Keys)|
    ensures now.Table?
    ensures var m := Pending(ms, before.rows.Keys)[k];
            Progress(before, Table(now.rows[m.version := Some(m.digest)], now.column), ms, k + 1)
  {
    hide Expected, Pending;
    PendingEntry(ms, before.rows.Keys, k);
  }

  lemma RecordedAllIsExpected(before: Rows, after: Rows, ms: seq<Migration>)
    requires Recorded(before, after, ms, |Pending(ms, before.Keys)|) && Matches(after, ms)
    ensures after == Expected(ms)
  {
    var todo := Pending(ms, before.Keys);
    assert todo[..|todo|] == todo;
    forall v | v in Versions(ms)
      ensures v in after
    {
      var i :| 0 <= i < |ms| && ms[i].version == v;
      PendingIsUnapplied(ms, before.Keys);
      if v !in before {
        assert ms[i] in todo;
        var j :| 0 <= j < |todo| && todo[j] == ms[i];
      }
    }
  }

  // ----- Many attempts -----

  ghost predicate Attempts(ledgers: seq<Ledger>, counts: seq<nat>, ms: seq<Migration>) {
    && |ledgers| == |counts| + 1
    && forall i | 0 <= i < |counts| :: Attempt(ledgers[i], ledgers[i + 1], ms, counts[i])
  }

  /** Every migration inserted by the first k attempts, in the order of insertion. */
  ghost function Inserted(ledgers: seq<Ledger>, counts: seq<nat>, ms: seq<Migration>, k: nat): seq<Migration>
    requires Attempts(ledgers, counts, ms) && k <= |counts|
  {
    if k == 0 then []
    else
      assert Attempt(ledgers[k - 1], ledgers[k - 1 + 1], ms, counts[k - 1]);
      Inserted(ledgers, counts, ms, k - 1) + Pending(ms, RowsOf(ledgers[k - 1]).Keys)[..counts[k - 1]]
  }

  lemma VersionsOfConcat(a: seq<Migration>, b: seq<Migration>)
    ensures Versions(a + b) == Versions(a) + Versions(b)
  {
    forall v | v in Versions(a) + Versions(b)
      ensures v in Versions(a + b)
    {
      if v in Versions(a) {
        var i :| 0 <= i < |a| && a[i].version == v;
        assert (a + b)[i].version == v;
      } else {
        var i :| 0 <= i < |b| && b[i].version == v;
        assert (a + b)[|a| + i].version == v;
      }
    }
  }

  /** The migrations in done are the first of those pending at the start, and the rows have them recorded. */
  ghost predicate Reached(start: Rows, now: Rows, ms: seq<Migration>, done: seq<Migration>) {
    && |done| <= |Pending(ms, start.Keys)| && done == Pending(ms, start.Keys)[..|done|]
    && now.Keys == start.Keys + Versions(done)
    && Backfilled(start, now, ms)
  }

  lemma AttemptReachesFurther(start: Rows, before: Rows, after: Rows, ms: seq<Migration>, done: seq<Migration>, n: nat)
    requires Distinct(ms) && Reached(start, before, ms, done)
    requires Backfilled(before, after, ms) && Recorded(before, after, ms, n)
    ensures Reached(start, after, ms, done + Pending(ms, before.Keys)[..n])
  {
    hide Expected, Versions, Pending;
    var todo := Pending(ms, start.Keys);
    PendingAfterPrefix(ms, start.Keys, |done|);
    var more := Pending(ms, before.Keys)[..n];
    assert done + more == todo[..|done| + n];
    VersionsOfConcat(done, more);
  }

  /** However attempts are cut short, together they insert a prefix of what was first pending, each once. */
  lemma {:induction false} AttemptsInsertAPrefix(ledgers: seq<Ledger>, counts: seq<nat>, ms: seq<Migration>, k: nat)
    requires Attempts(ledgers, counts, ms) && Distinct(ms) && k <= |counts|
    ensures Reached(RowsOf(ledgers[0]), RowsOf(ledgers[k]), ms, Inserted(ledgers, counts, ms, k))
  {
    var start := RowsOf(ledgers[0]);
    if k == 0 {
      assert Versions([]) == {};
    } else {
      AttemptsInsertAPrefix(ledgers, counts, ms, k - 1);
      assert Attempt(ledgers[k - 1], ledgers[k - 1 + 1], ms, counts[k - 1]);
      AttemptReachesFurther(start, RowsOf(ledgers[k - 1]), RowsOf(ledgers[k]), ms,
                            Inserted(ledgers, counts, ms, k - 1), counts[k - 1]);
    }
  }

  /** Attempts together with what each of them ran. */
  ghost predicate RunningAttempts(ledgers: seq<Ledger>, counts: seq<nat>, logs: seq<seq<string>>, ms: seq<Migration>) {
    && Attempts(ledgers, counts, ms) && |logs| == |ledgers| && logs[0] == []
    && forall i | 0 <= i < |counts| :: Ran(logs[i], logs[i + 1], Pending(ms, RowsOf(ledgers[i]).Keys), counts[i])
  }

  /**
   However attempts are cut short, whatever they recorded had run to its end before, and beyond what they
   recorded they ran at most one migration each.
   */
  lemma {:induction false} RecordedWasRun(ledgers: seq<Ledger>, counts: seq<nat>, logs: seq<seq<string>>,
                                         ms: seq<Migration>, k: nat)
    requires RunningAttempts(ledgers, counts, logs, ms) && k <= |counts|
    ensures forall m | m in Inserted(ledgers, counts, ms, k) :: m.version in logs[k]
    ensures |Inserted(ledgers, counts, ms, k)| <= |logs[k]| <= |Inserted(ledgers, counts, ms, k)| + k
  {
    if k > 0 {
      RecordedWasRun(ledgers, counts, logs, ms, k - 1);
      assert Attempt(ledgers[k - 1], ledgers[k - 1 + 1], ms, counts[k - 1]);
      var todo, n := Pending(ms, RowsOf(ledgers[k - 1]).Keys), counts[k - 1];
      assert Ran(logs[k - 1], logs[k - 1 + 1], todo, n);
      var m: nat :| n <= m <= n + 1 && m <= |todo| && logs[k] == logs[k - 1] + Names(todo[..m]);
      forall done | done in todo[..n]
        ensures done.version in logs[k]
      {
        var i :| 0 <= i < n && todo[i] == done;
        assert Names(todo[..m])[i] == done.version;
      }
    }
  }

  lemma {:induction false} NothingPendingWhenAllApplied(ms: seq<Migration>, applied: set<string>)
    requires Versions(ms) <= applied
    ensures Pending(ms, applied) == []
  {
    if ms != [] {
      TailVersions(ms);
      NothingPendingWhenAllApplied(ms[1..], applied);
    }
  }

  /**
   From any ledger and after any interrupted attempts, once the ledger is the expected one every
   migration that was not recorded at the start was inserted exactly once, in ascending order.
   */
  lemma InterruptedRunsInsertEachOnce(ledgers: seq<Ledger>, counts: seq<nat>, ms: seq<Migration>)
    requires Attempts(ledgers, counts, ms) && Distinct(ms) && Ascending(ms)
    requires RowsOf(ledgers[|counts|]) == Expected(ms)
    ensures var start, done := RowsOf(ledgers[0]), Inserted(ledgers, counts, ms, |counts|);
            && done == Pending(ms, start.Keys) && Distinct(done) && Ascending(done)
            && forall m :: m in done <==> m in ms && m.version !in start
  {
    var start, done := RowsOf(ledgers[0]), Inserted(ledgers, counts, ms, |counts|);
    AttemptsInsertAPrefix(ledgers, counts, ms, |counts|);
    PendingAfterPrefix(ms, start.Keys, |done|);
    NothingPendingWhenAllApplied(ms, Expected(ms).Keys);
    var todo := Pending(ms, start.Keys);
    assert todo[|done|..] == [];
    assert done == todo;
    PendingIsUnapplied(ms, start.Keys);
    PendingKeepsOrder(ms, start.Keys);
  }

  // ----- The read-only verifier -----

  datatype Problem = Duplicate(version: string) | NoFile(version: string) | Invalid(version: string)
                   | Differs(version: string) | NotApplied(version: string)

  datatype Verdict =
    | Current | NoMigrationFiles | DuplicateFiles | NotCurrent(problems: seq<Problem>) | SchemaNotAccepted

  type Listing = seq<(string, Option<string>)>

  ghost predicate ListsVersion(rows: Listing, k: nat, v: string) {
    exists i :: 0 <= i < k && i < |rows| && rows[i].0 == v
  }

  /** The first k rows name different known versions, each with its file's digest. */
  ghost predicate GoodRows(rows: Listing, k: nat, ms: seq<Migration>) {
    && (forall i | 0 <= i < k && i < |rows| :: rows[i].0 in Versions(ms) && rows[i].1 == Expected(ms)[rows[i].0])
    && (forall i, j | 0 <= i < j < k && j < |rows| :: rows[i].0 != rows[j].0)
  }

  ghost predicate HistoryCurrent(rows: Listing, ms: seq<Migration>) {
    GoodRows(rows, |rows|, ms) && forall v | v in Versions(ms) :: ListsVersion(rows, |rows|, v)
  }

  lemma {:induction false} DigestIsChecksum(ms: seq<Migration>, v: string)
    requires v in Versions(ms)
    ensures IsChecksum(DigestOf(ms, v))
  {
    if ms[0].version != v {
      TailVersions(ms);
      DigestIsChecksum(ms[1..], v);
    }
  }

  method CheckRow(row: (string, Option<string>), ms: seq<Migration>, recorded: set<string>) returns (p: Option<Problem>)
    ensures p.None? <==> row.0 !in recorded && row.0 in Versions(ms) && row.1 == Expected(ms)[row.0]
    ensures p.Some? && (p.value.Duplicate? || p.value.NoFile?) <==> row.0 in recorded || row.0 !in Versions(ms)
  {
    if row.0 in recorded {
      return Some(Duplicate(row.0));
    }
    if row.0 !in Versions(ms) {
      return Some(NoFile(row.0));
    }
    DigestIsChecksum(ms, row.0);
    var checksum := if row.1.None? then "" else row.1.value;
    if !IsChecksum(checksum) {
      return Some(Invalid(row.0));
    }
    if checksum != DigestOf(ms, row.0) {
      return Some(Differs(row.0));
    }
    return None;
  }

  method CheckHistory(rows: Listing, ms: seq<Migration>) returns (problems: seq<Problem>)
    ensures problems == [] <==> HistoryCurrent(rows, ms)
  {
    problems := [];
    var recorded: set<string> := {};
    for k := 0 to |rows|
      invariant problems == [] <==> GoodRows(rows, k, ms)
      invariant forall v :: v in recorded <==> v in Versions(ms) && ListsVersion(rows, k, v)
    {
      var row := rows[k];
      GoodRowsStep(rows, k, ms);
      var problem := CheckRow(row, ms, recorded);
      if problem.Some? {
        problems := problems + [problem.value];
      }
      forall v
        ensures ListsVersion(rows, k + 1, v) <==> ListsVersion(rows, k, v) || v == row.0
      {
        assert v == row.0 ==> rows[k].0 == v;
      }
      if row.0 in Versions(ms) {
        recorded := recorded + {row.0};
      }
    }
    for k := 0 to |ms|
      invariant problems == [] <==> GoodRows(rows, |rows|, ms) && forall i | 0 <= i < k :: ms[i].version in recorded
    {
      if ms[k].version !in recorded {
        problems := problems + [NotApplied(ms[k].version)];
      }
    }
  }

  lemma GoodRowsStep(rows: Listing, k: nat, ms: seq<Migration>)
    requires k < |rows|
    ensures GoodRows(rows, k + 1, ms) <==>
              && GoodRows(rows, k, ms)
              && rows[k].0 in Versions(ms) && rows[k].1 == Expected(ms)[rows[k].0]
              && !ListsVersion(rows, k, rows[k].0)
  {
  }

  method VerifyMigrationsCurrent(files: seq<File>, rows: Listing, schemaAccepted: bool) returns (r: Verdict)
    ensures var ms := Sorted(Versioned(files));
            && (r.DuplicateFiles? <==> !Distinct(Versioned(files)))
            && (r.NoMigrationFiles? <==> Distinct(Versioned(files)) && ms == [])
            && (r.NotCurrent? <==> Distinct(Versioned(files)) && ms != [] && !HistoryCurrent(rows, ms))
            && (r.Current? <==> Distinct(Versioned(files)) && ms != [] && HistoryCurrent(rows, ms) && schemaAccepted)
  {
    var discovered := DiscoverMigrations(files);
    if discovered.Err? {
      return DuplicateFiles;
    }
    if discovered.value == [] {
      return NoMigrationFiles;
    }
    var problems := CheckHistory(rows, discovered.value);
    if problems != [] {
      return NotCurrent(problems);
    }
    if !schemaAccepted {
      return SchemaNotAccepted;
    }
    return Current;
  }

  /** The rows a query returns for a table, in some order. */
  ghost predicate Lists(rows: Listing, table: Rows) {
    && (forall i, j | 0 <= i < j < |rows| :: rows[i].0 != rows[j].0)
    && (forall i | 0 <= i < |rows| :: rows[i].0 in table && rows[i].1 == table[rows[i].0])
    && (forall v | v in table :: ListsVersion(rows, |rows|, v))
  }

  /** The verifier's history condition holds of a ledger exactly when it is the one a completed run leaves. */
  lemma VerifierAcceptsExactlyFinishedLedgers(rows: Listing, table: Rows, ms: seq<Migration>)
    requires Lists(rows, table)
    ensures HistoryCurrent(rows, ms) <==> table == Expected(ms)
  {
    if HistoryCurrent(rows, ms) {
      forall v | v in table
        ensures v in Versions(ms) && table[v] == Expected(ms)[v]
      {
        assert ListsVersion(rows, |rows|, v);
        var i :| 0 <= i < |rows| && rows[i].0 == v;
      }
      forall v | v in Versions(ms)
        ensures v in table
      {
        assert ListsVersion(rows, |rows|, v);
        var i :| 0 <= i < |rows| && rows[i].0 == v;
      }
      assert table.Keys == Expected(ms).Keys;
    }
  }

  lemma NothingVersioned(files: seq<File>)
    requires Versioned(files) == []
    ensures Sorted(Versioned(files)) == [] && Distinct(Versioned(files)) && Versions([]) == {}
    ensures Names(Pending([], {})) == []
  {
  }

  /**
   The runner and the verifier disagree on files without a single migration: on an empty ledger the
   runner returns an empty list, and the verifier refuses whatever the table holds.
   */
  method WithoutMigrations(runner: MigrationRunner, files: seq<File>, rows: Listing)
    returns (applied: Result<seq<string>, Failure>, verdict: Verdict)
    requires ValidLedger(runner.ledger) && RowsOf(runner.ledger) == map[] && runner.budget >= 5
    requires Versioned(files) == []
    modifies runner
    ensures applied == Ok([]) && verdict == NoMigrationFiles
  {
    NothingVersioned(files);
    assert Blank(map[], {}) == {};
    assert RowsOf(runner.ledger).Keys == {};
    ghost var n;
    applied, n := runner.RunMigrations(files, true, true);
    verdict := VerifyMigrationsCurrent(files, rows, true);
  }
}
