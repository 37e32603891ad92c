/** The migration runner: a resumable fold over sorted files, one transaction per file. */
module Migration {
  datatype Script = UpScript(name: string) | DownScript(name: string)

  /** What has been committed: the scripts in order, and the rows of schema_migrations. */
  datatype Database = Database(executed: seq<Script>, recorded: set<string>)

  /** A file's transaction commits, rolls back, or commits although an error is reported. */
  datatype Fault = Commits | RollsBack | Unconfirmed

  const EMPTY := Database([], {})

  const UP := ".up.sql"
  const DOWN := ".down.sql"

  function DeriveUpName(name: string): string {
    var n := |name| - |DOWN|;
    if n > 0 && name[n..] == DOWN then name[..n] + UP else name
  }

  /** A down file's record key is its up counterpart. */
  lemma DeriveStem(stem: string)
    requires stem != ""
    ensures DeriveUpName(stem + DOWN) == stem + UP
  {
    assert (stem + DOWN)[|stem|..] == DOWN && (stem + DOWN)[..|stem|] == stem;
  }

  function ApplyUp(db: Database, f: string): Database {
    Database(db.executed + [UpScript(f)], db.recorded + {f})
  }

  function ApplyDown(db: Database, f: string): Database {
    Database(db.executed + [DownScript(f)], db.recorded - {DeriveUpName(f)})
  }

  /** The file's up script has run and no down script of it since. */
  function InEffect(log: seq<Script>, f: string): bool {
    if log == [] then false
    else
      var n := |log| - 1;
      match log[n]
      case UpScript(g) => g == f || InEffect(log[..n], f)
      case DownScript(d) => DeriveUpName(d) != f && InEffect(log[..n], f)
  }

  /** No up script ran while it was in effect: between two runs of it lies one of its down script. */
  predicate RanOnce(log: seq<Script>) {
    log == [] ||
    (var n := |log| - 1;
     RanOnce(log[..n]) && (log[n].UpScript? ==> !InEffect(log[..n], log[n].name)))
  }

  /** The record table says exactly which up scripts are in effect. */
  ghost predicate RecordTrue(db: Database) {
    forall f :: f in db.recorded <==> InEffect(db.executed, f)
  }

  /** Script and record commit together: the record stays true and an unrecorded script is not run twice. */
  lemma ApplyUpTrue(db: Database, f: string)
    requires RecordTrue(db) && RanOnce(db.executed) && f !in db.recorded
    ensures RecordTrue(ApplyUp(db, f)) && RanOnce(ApplyUp(db, f).executed)
  {
    var log := ApplyUp(db, f).executed;
    assert log[..|log| - 1] == db.executed;
  }

  /** A down script takes its up script out of effect and off the record. */
  lemma ApplyDownTrue(db: Database, f: string)
    requires RecordTrue(db) && RanOnce(db.executed)
    ensures RecordTrue(ApplyDown(db, f)) && RanOnce(ApplyDown(db, f).executed)
  {
    var log := ApplyDown(db, f).executed;
    assert log[..|log| - 1] == db.executed;
  }

  /** One clean Up over the given files: unrecorded ones are applied in order. */
  function UpAll(db: Database, files: seq<string>): Database {
    if files == [] then db
    else
      var n := |files| - 1;
      var before := UpAll(db, files[..n]);
      if files[n] in before.recorded then before else ApplyUp(before, files[n])
  }

  function DownAll(db: Database, files: seq<string>): Database {
    if files == [] then db else ApplyDown(DownAll(db, files[..|files| - 1]), files[|files| - 1])
  }

  ghost predicate Distinct(files: seq<string>) {
    forall i, j | 0 <= i < j < |files| :: files[i] != files[j]
  }

  lemma {:induction false} UpRecords(db: Database, files: seq<string>)
    ensures UpAll(db, files).recorded == db.recorded + set f | f in files
    ensures db.executed <= UpAll(db, files).executed
  {
    if files != [] {
      var n := |files| - 1;
      UpRecords(db, files[..n]);
      assert forall f :: f in files <==> f in files[..n] || f == files[n];
    }
  }

  lemma {:induction false} UpSkipsRecorded(db: Database, files: seq<string>)
    requires forall f | f in files :: f in db.recorded
    ensures UpAll(db, files) == db
  {
    if files != [] { UpSkipsRecorded(db, files[..|files| - 1]); }
  }

  lemma {:induction false} UpSplits(db: Database, a: seq<string>, b: seq<string>)
    ensures UpAll(db, a + b) == UpAll(UpAll(db, a), b)
    decreases |b|
  {
    if b == [] {
      assert a + b == a;
    } else {
      var n := |b| - 1;
      UpSplits(db, a, b[..n]);
      assert (a + b)[..|a + b| - 1] == a + b[..n];
    }
  }

  /** After a failure at any file the state is exactly that of a prefix; a later complete Up then ends where one
      clean run would have. */
  lemma UpResumes(db: Database, files: seq<string>, n: nat)
    requires n <= |files|
    ensures UpAll(UpAll(db, files[..n]), files) == UpAll(db, files)
  {
    var p, s := files[..n], files[n..];
    assert files == p + s;
    UpSplits(db, p, s);
    UpSplits(UpAll(db, p), p, s);
    UpRecords(db, p);
    UpSkipsRecorded(UpAll(db, p), p);
  }

  /** Down runs the scripts of its files, each once, in the order given, after what had run before. */
  lemma {:induction false} DownRuns(db: Database, files: seq<string>)
    ensures |DownAll(db, files).executed| == |db.executed| + |files| && db.executed <= DownAll(db, files).executed
    ensures forall i: nat | i < |files| :: DownAll(db, files).executed[|db.executed|..][i] == DownScript(files[i])
  {
    if files != [] { DownRuns(db, files[..|files| - 1]); }
  }

  /** After what had run before, the scripts of so many files, from the last file backwards. */
  ghost predicate Reverts(before: seq<Script>, after: seq<Script>, files: seq<string>, done: nat) {
    && done <= |files| && |after| == |before| + done && before <= after
    && forall i: nat | i < done :: after[|before|..][i] == DownScript(files[|files| - 1 - i])
  }

  lemma RevertsPrefix(db: Database, files: seq<string>, done: nat)
    requires done <= |files|
    ensures Reverts(db.executed, DownAll(db, Reversed(files)[..done]).executed, files, done)
  {
    hide DownAll;
    DownRuns(db, Reversed(files)[..done]);
  }

  /** Up's scripts are those of its files, place by place. */
  lemma UpScriptsAt(files: seq<string>, i: nat)
    requires i < |files|
    ensures UpScripts(files)[i] == UpScript(files[i])
  {
  }

  /** Any number of interrupted runs. */
  function Interrupted(db: Database, files: seq<string>, stops: seq<nat>): Database
    requires forall i | 0 <= i < |stops| :: stops[i] <= |files|
  {
    if stops == [] then db else UpAll(Interrupted(db, files, stops[..|stops| - 1]), files[..stops[|stops| - 1]])
  }

  /** However often Up failed and wherever, one that succeeds reaches the state of a single clean run, and one
      more changes nothing. */
  lemma {:induction false} InterruptedUpConverges(db: Database, files: seq<string>, stops: seq<nat>)
    requires forall i | 0 <= i < |stops| :: stops[i] <= |files|
    ensures UpAll(Interrupted(db, files, stops), files) == UpAll(db, files)
    ensures UpAll(UpAll(db, files), files) == UpAll(db, files)
  {
    assert files[..|files|] == files;
    UpResumes(db, files, |files|);
    if stops != [] {
      var k := |stops| - 1;
      InterruptedUpConverges(db, files, stops[..k]);
      UpResumes(Interrupted(db, files, stops[..k]), files, stops[k]);
    }
  }

  lemma {:induction false} DownForgets(db: Database, files: seq<string>)
    ensures DownAll(db, files).recorded == db.recorded - set f | f in files :: DeriveUpName(f)
  {
    if files != [] {
      var n := |files| - 1;
      DownForgets(db, files[..n]);
      assert forall f :: f in files <==> f in files[..n] || f == files[n];
    }
  }

  function UpScripts(files: seq<string>): (r: seq<Script>)
    ensures |r| == |files|
  {
    seq(|files|, i requires 0 <= i < |files| => UpScript(files[i]))
  }

  lemma {:induction false} UpAppliesFresh(db: Database, files: seq<string>)
    requires Distinct(files)
    ensures |UpAll(db, files).executed| <= |db.executed| + |files|
    ensures UpAll(db, files).executed == db.executed + UpScripts(files) <==> forall f | f in files :: f !in db.recorded
  {
    if files == [] {
      assert db.executed + UpScripts(files) == db.executed;
    } else {
      var n := |files| - 1;
      var p, last := files[..n], files[n];
      UpAppliesFresh(db, p);
      UpRecords(db, p);
      assert last !in p;
      assert forall f :: f in files <==> f in p || f == last;
      assert UpScripts(files) == UpScripts(p) + [UpScript(last)];
      if last !in db.recorded {
        if UpAll(db, files).executed == db.executed + UpScripts(files) {
          assert UpAll(db, files).executed[..|db.executed| + n] == db.executed + UpScripts(p);
          assert UpAll(db, p).executed == UpAll(db, files).executed[..|UpAll(db, files).executed| - 1];
        }
        if UpAll(db, p).executed == db.executed + UpScripts(p) {
          assert UpAll(db, files).executed == db.executed + UpScripts(files);
        }
      }
    }
  }

  /** The files not yet recorded, in order. */
  function Missing(files: seq<string>, recorded: set<string>): seq<string> {
    if files == [] then []
    else var n := |files| - 1; Missing(files[..n], recorded) + if files[n] in recorded then [] else [files[n]]
  }

  /** Up runs exactly the scripts of the files that were not recorded, each once, in order, after what had run. */
  lemma {:induction false} UpRunsMissing(db: Database, files: seq<string>)
    requires Distinct(files)
    ensures UpAll(db, files).executed == db.executed + UpScripts(Missing(files, db.recorded))
  {
    if files == [] {
      assert db.executed + UpScripts(Missing(files, db.recorded)) == db.executed;
    } else {
      var n := |files| - 1;
      UpRunsMissing(db, files[..n]);
      UpRecords(db, files[..n]);
      assert files[n] !in files[..n];
      var m := Missing(files[..n], db.recorded);
      assert UpScripts(m + [files[n]]) == UpScripts(m) + [UpScript(files[n])];
      assert m + [] == m;
    }
  }

  /** After Up and then a complete Down, the next Up runs every file again exactly when each up file has a down
      file that derives its name. */
  lemma DownThenUpReappliesIff(db: Database, ups: seq<string>, downs: seq<string>)
    requires Distinct(ups)
    ensures var down := DownAll(UpAll(db, ups), downs);
            (UpAll(down, ups).executed == down.executed + UpScripts(ups)) <==>
            (forall f | f in ups :: exists d :: d in downs && DeriveUpName(d) == f)
  {
    UpRecords(db, ups);
    DownForgets(UpAll(db, ups), downs);
    UpAppliesFresh(DownAll(UpAll(db, ups), downs), ups);
  }

  /** The runner over a live database. */
  class Runner {
    var db: Database

    constructor ()
      ensures db == Database([], {})
    {
      db := Database([], {});
    }

    /** One file in one transaction with its bookkeeping row. */
    method ApplyFile(f: string, isUp: bool, fault: Fault) returns (ok: bool)
      modifies this
      ensures ok == fault.Commits?
      ensures db == if fault.RollsBack? then old(db) else if isUp then ApplyUp(old(db), f) else ApplyDown(old(db), f)
      ensures RecordTrue(old(db)) && RanOnce(old(db.executed)) && (isUp ==> f !in old(db.recorded)) ==>
                RecordTrue(db) && RanOnce(db.executed)
    {
      if RecordTrue(db) && RanOnce(db.executed) {
        if !isUp { ApplyDownTrue(db, f); } else if f !in db.recorded { ApplyUpTrue(db, f); }
      }
      if !fault.RollsBack? {
        db := if isUp then ApplyUp(db, f) else ApplyDown(db, f);
      }
      ok := fault.Commits?;
    }

    /** Up against the names loaded once at the start. Whatever fails, the state is that of a prefix. */
    method Up(files: seq<string>, faults: nat -> Fault) returns (ok: bool, ghost done: nat)
      requires Distinct(files)
      modifies this
      ensures done <= |files| && db == UpAll(old(db), files[..done])
      ensures ok ==> db == UpAll(old(db), files)
    {
      var applied := db.recorded;
      done := 0;
      var i := 0;
      while i < |files|
        invariant 0 <= i <= |files| && done == i
        invariant db == UpAll(old(db), files[..i])
      {
        UpRecords(old(db), files[..i]);
        assert files[..i + 1][..i] == files[..i] && files[i] !in files[..i];
        done := i + 1;
        if files[i] !in applied {
          var committed := ApplyFile(files[i], true, faults(i));
          if !committed {
            if faults(i).RollsBack? { done := i; }
            return false, done;
          }
        }
        i := i + 1;
      }
      assert files[..|files|] == files;
      ok := true;
    }

    /** Down over the files in reverse order; it does not consult the record. */
    method Down(files: seq<string>, faults: nat -> Fault) returns (ok: bool, ghost done: nat)
      modifies this
      ensures done <= |files| && db == DownAll(old(db), Reversed(files)[..done])
      ensures ok ==> db == DownAll(old(db), Reversed(files))
      ensures Reverts(old(db.executed), db.executed, files, done)
      ensures ok ==> done == |files|
    {
      hide Reverts, Reversed;
      var order := Reversed(files);
      done := 0;
      var i := 0;
      while i < |order|
        invariant 0 <= i <= |order| && done == i
        invariant db == DownAll(old(db), order[..i])
      {
        assert order[..i + 1][..i] == order[..i];
        done := i + 1;
        var committed := ApplyFile(order[i], false, faults(i));
        if !committed {
          if faults(i).RollsBack? { done := i; }
          RevertsPrefix(old(db), files, done);
          return false, done;
        }
        i := i + 1;
      }
      assert order[..|order|] == order;
      RevertsPrefix(old(db), files, |files|);
      ok := true;
    }
  }

  function Reversed(s: seq<string>): (r: seq<string>)
    ensures |r| == |s|
  {
    seq(|s|, i requires 0 <= i < |s| => s[|s| - 1 - i])
  }

  /** Each name stands at its place counted from the other end. */
  lemma ReversedAt(s: seq<string>, i: nat)
    requires i < |s|
    ensures Reversed(s)[i] == s[|s| - 1 - i]
  {
  }
}
