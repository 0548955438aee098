// Crash-resumable schema migrations (internal/store/store.go). The daemon records migrations by
// file name; the schema is what the files' bodies have made of it, in the order of commits.
module Migrations {

  // How one migration's transaction ends. A run stops at the first that does not commit
  // cleanly: an error, a lost commit reply, or a crash, with or without the transaction applied.
  datatype Outcome = Commits | Stops(applied: bool)

  // An embedded schema file; a release is the sorted list of its files.
  datatype File = File(name: string, body: string)

  datatype Db = Db(recorded: set<string>, schema: seq<File>)

  function NamesOf(files: seq<File>): set<string> {
    set f | f in files :: f.name
  }

  predicate Distinct(files: seq<File>) {
    forall i, k :: 0 <= i < k < |files| ==> files[i].name != files[k].name
  }

  // The transaction: the body and its record together.
  function Applied(db: Db, file: File): Db {
    Db(db.recorded + {file.name}, db.schema + [file])
  }

  // One run of migrate; outcomes says how the transactions that it begins end, a missing one
  // that the run is cut off before it. The flag reports success.
  function Migrated(db: Db, files: seq<File>, outcomes: seq<Outcome>): (Db, bool)
    decreases files
  {
    if files == [] then (db, true)
    else if files[0].name in db.recorded then Migrated(db, files[1..], outcomes)
    else if outcomes == [] then (db, false)
    else if outcomes[0].Stops? then (if outcomes[0].applied then Applied(db, files[0]) else db, false)
    else Migrated(Applied(db, files[0]), files[1..], outcomes[1..])
  }

  class Store {
    var recorded: set<string>
    var schema: seq<File>

    constructor ()
      ensures recorded == {} && schema == []
    {
      recorded, schema := {}, [];
    }

    // The names already applied are read once, before the loop.
    method Migrate(files: seq<File>, outcomes: seq<Outcome>) returns (ok: bool)
      requires Distinct(files)
      modifies this
      ensures (Db(recorded, schema), ok) == Migrated(Db(old(recorded), old(schema)), files, outcomes)
    {
      var applied := recorded;
      var n, used := 0, 0;
      while n < |files|
        invariant n <= |files| && used <= |outcomes|
        invariant forall i :: n <= i < |files| ==> (files[i].name in applied <==> files[i].name in recorded)
        invariant Migrated(Db(recorded, schema), files[n..], outcomes[used..])
                  == Migrated(Db(old(recorded), old(schema)), files, outcomes)
      {
        var file := files[n];
        if file.name !in applied {
          if used == |outcomes| {
            return false;
          }
          var o := outcomes[used];
          used := used + 1;
          if o.Commits? || o.applied {
            recorded, schema := recorded + {file.name}, schema + [file];
          }
          if o.Stops? {
            return false;
          }
        }
        n := n + 1;
      }
      ok := true;
    }
  }

  // ----- Any number of interrupted runs ------------------------------------------------------------

  // What a sequence of runs leaves behind, one runner at a time.
  function AfterRuns(files: seq<File>, runs: seq<seq<Outcome>>): Db {
    if runs == [] then Db({}, [])
    else Migrated(AfterRuns(files, runs[..|runs| - 1]), files, runs[|runs| - 1]).0
  }

  // The first k migrations are committed, once each and in order, and recorded; no others.
  predicate UpTo(db: Db, files: seq<File>, k: nat) {
    k <= |files| && db == Db(NamesOf(files[..k]), files[..k])
  }

  // A run from there resumes at k.
  lemma {:induction false} Resumes(db: Db, files: seq<File>, from: nat, k: nat, outcomes: seq<Outcome>)
    returns (k': nat)
    requires Distinct(files) && UpTo(db, files, k) && from <= |files|
    requires from <= k
    ensures UpTo(Migrated(db, files[from..], outcomes).0, files, k') && k <= k'
    ensures Migrated(db, files[from..], outcomes).1 ==> k' == |files|
    decreases |files| - from
  {
    k' := k;
    if from < |files| {
      assert files[from..][1..] == files[from + 1..];
      if from < k {
        assert files[..k][from] == files[from] && files[from] in files[..k];
        k' := Resumes(db, files, from + 1, k, outcomes);
      } else {
        assert files[from].name !in NamesOf(files[..k]);
        assert files[..k + 1] == files[..k] + [files[k]];
        assert UpTo(Applied(db, files[from]), files, k + 1);
        if outcomes != [] {
          if outcomes[0].Commits? {
            k' := Resumes(Applied(db, files[from]), files, from + 1, k + 1, outcomes[1..]);
          } else if outcomes[0].applied {
            k' := k + 1;
          }
        }
      }
    }
  }

  // How many of the transactions that a run begins are applied: those that commit before the
  // first that does not, and that one if it was applied all the same.
  function AppliedBy(outcomes: seq<Outcome>): nat {
    if outcomes == [] then 0
    else if outcomes[0].Commits? then 1 + AppliedBy(outcomes[1..])
    else if outcomes[0].applied then 1 else 0
  }

  // The first n transactions commit.
  predicate Commit(outcomes: seq<Outcome>, n: int) {
    n <= |outcomes| && forall i :: 0 <= i < n ==> outcomes[i].Commits?
  }

  // c transactions that commit, and then one that does not, are c or c + 1 applied.
  lemma {:induction false} AppliedByIs(commits: seq<Outcome>, applied: bool, rest: seq<Outcome>)
    requires Commit(commits, |commits|)
    ensures AppliedBy(commits) == |commits|
    ensures AppliedBy(commits + [Stops(applied)] + rest) == |commits| + if applied then 1 else 0
  {
    if commits == [] {
      assert commits + [Stops(applied)] + rest == [Stops(applied)] + rest;
    } else {
      assert (commits + [Stops(applied)] + rest)[1..] == commits[1..] + [Stops(applied)] + rest;
      AppliedByIs(commits[1..], applied, rest);
    }
  }

  function Least(a: nat, b: nat): nat {
    if a < b then a else b
  }

  // A run on the first k migrations gets exactly as far as its transactions do, and succeeds
  // exactly when there are commits enough for the rest.
  lemma {:induction false} RunGetsTo(db: Db, files: seq<File>, from: nat, k: nat, outcomes: seq<Outcome>)
    requires Distinct(files) && UpTo(db, files, k) && from <= k
    ensures UpTo(Migrated(db, files[from..], outcomes).0, files, Least(|files|, k + AppliedBy(outcomes)))
    ensures Migrated(db, files[from..], outcomes).1 <==> Commit(outcomes, |files| - k)
    decreases |files| - from
  {
    if from < k {
      assert files[..k][from] == files[from] && files[from] in files[..k];
      assert files[from..][1..] == files[from + 1..];
      RunGetsTo(db, files, from + 1, k, outcomes);
    } else if k < |files| && outcomes != [] {
      AppliesNext(db, files, k);
      assert files[from..][1..] == files[from + 1..];
      if outcomes[0].Commits? {
        RunGetsTo(Applied(db, files[k]), files, k + 1, k + 1, outcomes[1..]);
        CommitsMore(outcomes, |files| - k);
      }
    } else if k < |files| {
      AppliesNext(db, files, k);
    }
  }

  lemma CommitsMore(outcomes: seq<Outcome>, n: nat)
    requires outcomes != [] && outcomes[0].Commits? && 0 < n
    ensures Commit(outcomes, n) <==> Commit(outcomes[1..], n - 1)
  {
    if Commit(outcomes[1..], n - 1) {
      forall i | 0 <= i < n
        ensures outcomes[i].Commits?
      {
        assert i > 0 ==> outcomes[i] == outcomes[1..][i - 1];
      }
    }
  }

  lemma AppliesNext(db: Db, files: seq<File>, k: nat)
    requires Distinct(files) && UpTo(db, files, k) && k < |files|
    ensures files[k].name !in db.recorded && UpTo(Applied(db, files[k]), files, k + 1)
  {
    assert files[..k + 1] == files[..k] + [files[k]];
  }

  // After any runs, each cut off anywhere, the record is that of a prefix of the files, and
  // exactly its bodies have been committed, once each.
  lemma {:induction false} PrefixAlways(files: seq<File>, runs: seq<seq<Outcome>>) returns (k: nat)
    requires Distinct(files)
    ensures UpTo(AfterRuns(files, runs), files, k)
  {
    k := 0;
    if runs != [] {
      k := PrefixAlways(files, runs[..|runs| - 1]);
      assert files[0..] == files;
      k := Resumes(AfterRuns(files, runs[..|runs| - 1]), files, 0, k, runs[|runs| - 1]);
    }
  }

  // One successful run then leaves what a single clean run on an empty database leaves.
  lemma SuccessIsClean(files: seq<File>, runs: seq<seq<Outcome>>, last: seq<Outcome>, clean: seq<Outcome>)
    requires Distinct(files)
    requires Migrated(AfterRuns(files, runs), files, last).1 && Migrated(Db({}, []), files, clean).1
    ensures Migrated(AfterRuns(files, runs), files, last).0 == Migrated(Db({}, []), files, clean).0
    ensures Migrated(AfterRuns(files, runs), files, last).0 == Db(NamesOf(files), files)
  {
    assert files[0..] == files && files[..|files|] == files;
    var k := PrefixAlways(files, runs);
    var _ := Resumes(AfterRuns(files, runs), files, 0, k, last);
    var _ := Resumes(Db({}, []), files, 0, 0, clean);
  }

  // ----- A newer release ---------------------------------------------------------------------------

  // The files that a run with done recorded applies.
  function NotIn(files: seq<File>, done: set<string>): seq<File> {
    if files == [] then []
    else (if files[0].name in done then [] else [files[0]]) + NotIn(files[1..], done)
  }

  lemma {:induction false} AppliesMissing(db: Db, files: seq<File>, outcomes: seq<Outcome>)
    requires Distinct(files) && Migrated(db, files, outcomes).1
    ensures Migrated(db, files, outcomes).0.schema == db.schema + NotIn(files, db.recorded)
    decreases |files|
  {
    if files != [] {
      if files[0].name in db.recorded {
        AppliesMissing(db, files[1..], outcomes);
      } else {
        AppliesMissing(Applied(db, files[0]), files[1..], outcomes[1..]);
        SameMissing(files[1..], db.recorded, files[0].name);
      }
    }
  }

  lemma {:induction false} SameMissing(files: seq<File>, done: set<string>, other: string)
    requires forall i :: 0 <= i < |files| ==> files[i].name != other
    ensures NotIn(files, done + {other}) == NotIn(files, done)
  {
    if files != [] {
      SameMissing(files[1..], done, other);
    }
  }

  lemma {:induction false} NotInDisjoint(files: seq<File>, done: set<string>)
    requires forall i :: 0 <= i < |files| ==> files[i].name !in done
    ensures NotIn(files, done) == files
  {
    if files != [] {
      NotInDisjoint(files[1..], done);
    }
  }

  lemma {:induction false} NotInAppend(a: seq<File>, b: seq<File>, done: set<string>)
    requires forall i :: 0 <= i < |a| ==> a[i].name in done
    ensures NotIn(a + b, done) == NotIn(b, done)
  {
    if a == [] {
      assert a + b == b;
    } else {
      assert (a + b)[1..] == a[1..] + b;
      NotInAppend(a[1..], b, done);
    }
  }

  // The new release begins with the files applied, in the same order and unedited.
  predicate Extends(applied: seq<File>, newer: seq<File>) {
    && |applied| <= |newer|
    && forall i :: 0 <= i < |applied| ==> newer[i].name == applied[i].name && newer[i].body == applied[i].body
  }

  lemma ExtendedIsApplied(applied: seq<File>, newer: seq<File>)
    requires Distinct(newer) && Extends(applied, newer)
    ensures applied + NotIn(newer, NamesOf(applied)) == newer
  {
    var added := newer[|applied|..];
    assert newer == applied + added by {
      assert forall i :: 0 <= i < |applied| ==> newer[i] == applied[i];
    }
    assert forall i :: 0 <= i < |applied| ==> applied[i] in applied;
    NotInAppend(applied, added, NamesOf(applied));
    assert forall i :: 0 <= i < |added| ==> added[i] == newer[|applied| + i];
    NotInDisjoint(added, NamesOf(applied));
  }

  lemma AppliedIsExtended(applied: seq<File>, rest: seq<File>, newer: seq<File>)
    requires applied + rest == newer
    ensures Extends(applied, newer)
  {
    assert forall i :: 0 <= i < |applied| ==> newer[i] == (applied + rest)[i];
  }

  // The upgrade of a database that any runs of the older release have left, complete or not,
  // ends with the schema of a clean install of the newer one exactly when the newer release
  // only appends to the files applied. Nothing in the code checks that: it goes by name.
  lemma UpgradeIsCleanExactly(
    older: seq<File>, runs: seq<seq<Outcome>>, newer: seq<File>, last: seq<Outcome>, clean: seq<Outcome>)
    requires Distinct(older) && Distinct(newer)
    requires Migrated(AfterRuns(older, runs), newer, last).1 && Migrated(Db({}, []), newer, clean).1
    ensures var applied := AfterRuns(older, runs).schema;
            Migrated(AfterRuns(older, runs), newer, last).0.schema == Migrated(Db({}, []), newer, clean).0.schema
            <==> Extends(applied, newer)
  {
    var k := PrefixAlways(older, runs);
    var db := AfterRuns(older, runs);
    AppliesMissing(db, newer, last);
    AppliesMissing(Db({}, []), newer, clean);
    NotInDisjoint(newer, {});
    var rest := NotIn(newer, db.recorded);
    if db.schema + rest == newer {
      AppliedIsExtended(db.schema, rest, newer);
    }
    if Extends(db.schema, newer) {
      ExtendedIsApplied(db.schema, newer);
    }
  }

  lemma AppliesFirst(db: Db, file: File, files: seq<File>, outcomes: seq<Outcome>)
    requires file.name !in db.recorded
    ensures Migrated(db, [file] + files, [Commits] + outcomes) == Migrated(Applied(db, file), files, outcomes)
  {
    assert ([file] + files)[1..] == files && ([Commits] + outcomes)[1..] == outcomes;
  }

  lemma SkipsFirst(db: Db, file: File, files: seq<File>, outcomes: seq<Outcome>)
    requires file.name in db.recorded
    ensures Migrated(db, [file] + files, outcomes) == Migrated(db, files, outcomes)
  {
    assert ([file] + files)[1..] == files;
  }

  lemma OneRun(files: seq<File>, outcomes: seq<Outcome>)
    ensures AfterRuns(files, [outcomes]) == Migrated(Db({}, []), files, outcomes).0
  {
    assert [outcomes][..0] == [];
  }

  // A shipped file edited under its own name: the upgrade succeeds and keeps the old body.
  lemma EditedFileIsSkipped()
    ensures var older, newer := File("001_init.sql", "A"), File("001_init.sql", "B");
            var db := AfterRuns([older], [[Commits]]);
            && Migrated(db, [newer], []) == (db, true) && db.schema == [older]
            && Migrated(Db({}, []), [newer], [Commits]).0.schema == [newer] != [older]
  {
    var older, newer := File("001_init.sql", "A"), File("001_init.sql", "B");
    OneRun([older], [Commits]);
    AppliesFirst(Db({}, []), older, [], []);
    AppliesFirst(Db({}, []), newer, [], []);
    SkipsFirst(AfterRuns([older], [[Commits]]), newer, [], []);
    assert [older] + [] == [older] && [newer] + [] == [newer] && [Commits] + [] == [Commits];
  }

  // A new file that sorts before an applied one: the upgrade runs it after that one.
  lemma InsertedFileRunsLate(early: File, late: File)
    requires early.name != late.name
    ensures var db := AfterRuns([late], [[Commits]]);
            && Migrated(db, [early, late], [Commits]).1
            && Migrated(db, [early, late], [Commits]).0.schema == [late, early]
            && Migrated(Db({}, []), [early, late], [Commits, Commits]).0.schema == [early, late]
  {
    var db := AfterRuns([late], [[Commits]]);
    OneRun([late], [Commits]);
    AppliesFirst(Db({}, []), late, [], []);
    assert [late] + [] == [late] && [Commits] + [] == [Commits];
    assert [early] + [late] == [early, late] && [Commits] + [Commits] == [Commits, Commits];
    AppliesFirst(db, early, [late], []);
    SkipsFirst(Applied(db, early), late, [], []);
    AppliesFirst(Db({}, []), early, [late], [Commits]);
    AppliesFirst(Applied(Db({}, []), early), late, [], []);
  }
}
