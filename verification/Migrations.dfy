/** The migration runner: one transaction per file, interrupted by failures and crashes, run again at
    every start. */
module Migrations {
  import opened Wrappers
  import opened Text

  const SUFFIX := ".sql"

  predicate HasSuffix(s: string) {
    |SUFFIX| <= |s| && s[|s| - |SUFFIX|..] == SUFFIX
  }

  /** strings.TrimSuffix(file, ".sql"). */
  function Version(file: string): string {
    if HasSuffix(file) then file[..|file| - |SUFFIX|] else file
  }

  /** A version is the file name without its extension. */
  lemma VersionIs(v: string, file: string)
    ensures Version(v + ".sql") == v
    ensures HasSuffix(file) <==> exists w :: file == w + ".sql"
    ensures !HasSuffix(file) ==> Version(file) == file
  {
    assert (v + ".sql")[|v|..] == ".sql" && (v + ".sql")[..|v|] == v;
    if HasSuffix(file) {
      assert file == file[..|file| - 4] + ".sql";
    }
    if w :| file == w + ".sql" {
      assert file[|w|..] == ".sql";
    }
  }

  /** Different migration files have different versions. */
  lemma VersionsAreInjective(a: string, b: string)
    requires HasSuffix(a) && HasSuffix(b) && Version(a) == Version(b)
    ensures a == b
  {
    assert a == Version(a) + SUFFIX && b == Version(b) + SUFFIX;
  }

  // ----- The directory -----

  datatype Entry = Entry(name: string, isDir: bool)

  ghost predicate Ascending(files: seq<string>) {
    forall i, j | 0 <= i < j < |files| :: Less(files[i], files[j])
  }

  predicate IsMigration(e: Entry) {
    !e.isDir && HasSuffix(e.name)
  }

  /** Insertion into an ascending list; a name that is there already is not repeated. */
  function Insert(files: seq<string>, name: string): seq<string> {
    if files == [] then [name]
    else if files[0] == name then files
    else if Less(files[0], name) then [files[0]] + Insert(files[1..], name)
    else [name] + files
  }

  lemma {:induction false} InsertIs(files: seq<string>, name: string)
    requires Ascending(files)
    ensures Ascending(Insert(files, name))
    ensures forall f :: f in Insert(files, name) <==> f in files || f == name
  {
    if files != [] {
      assert files == [files[0]] + files[1..];
      LessTotal(files[0], name);
      if files[0] != name && Less(files[0], name) {
        InsertIs(files[1..], name);
        var rest := Insert(files[1..], name);
        forall i | 0 <= i < |rest|
          ensures Less(files[0], rest[i])
        {
          assert rest[i] in rest;
          if rest[i] != name {
            var j :| 0 <= j < |files| - 1 && files[1..][j] == rest[i];
            assert files[j + 1] == rest[i];
          }
        }
      } else if files[0] != name {
        forall i | 0 <= i < |files|
          ensures Less(name, files[i])
        {
          if i > 0 {
            LessTransitive(name, files[0], files[i]);
          }
        }
      }
    }
  }

  /** migrationFiles: the .sql files of the directory in ascending order; an empty directory is an error. */
  method MigrationFiles(entries: seq<Entry>) returns (files: Option<seq<string>>)
    ensures files.Some? ==> files.value != [] && Ascending(files.value)
    ensures files.Some? ==> forall f :: f in files.value <==>
      exists i :: 0 <= i < |entries| && entries[i] == Entry(f, false) && HasSuffix(f)
    ensures files.None? <==> forall i | 0 <= i < |entries| :: !IsMigration(entries[i])
  {
    var found: seq<string> := [];
    for i := 0 to |entries|
      invariant Ascending(found)
      invariant forall f :: f in found <==> exists j :: 0 <= j < i && entries[j] == Entry(f, false) && HasSuffix(f)
      invariant found == [] <==> forall j | 0 <= j < i :: !IsMigration(entries[j])
    {
      if IsMigration(entries[i]) {
        InsertIs(found, entries[i].name);
        assert entries[i] == Entry(entries[i].name, false);
        found := Insert(found, entries[i].name);
        assert entries[i].name in found;
      }
    }
    files := if found == [] then None else Some(found);
  }

  // ----- One run -----

  /** What becomes of a migration's transaction. A crash may strike before or after the commit. */
  datatype Fate = Commits | Fails | CrashesBefore | CrashesAfter

  /** The rows of schema_migrations, and the scripts whose effects are in the database, in order. */
  datatype State = State(recorded: set<string>, history: seq<string>)

  function Applied(s: State, v: string): State {
    State(s.recorded + {v}, s.history + [v])
  }

  function RunOn(s: State, files: seq<string>, fates: seq<Fate>): State
    requires |fates| == |files|
    decreases |files|
  {
    if files == [] then s
    else
      var v := Version(files[0]);
      if v in s.recorded then RunOn(s, files[1..], fates[1..])
      else match fates[0]
        case Commits => RunOn(Applied(s, v), files[1..], fates[1..])
        case CrashesAfter => Applied(s, v)
        case _ => s
  }

  /** Whether the run got through all files. */
  predicate Completes(s: State, files: seq<string>, fates: seq<Fate>)
    requires |fates| == |files|
    decreases |files|
  {
    files == [] ||
      var v := Version(files[0]);
      if v in s.recorded then Completes(s, files[1..], fates[1..])
      else fates[0] == Commits && Completes(Applied(s, v), files[1..], fates[1..])
  }

  datatype Outcome = Done(applied: seq<string>) | Error(applied: seq<string>) | Crashed

  class Database {
    var recorded: set<string>
    ghost var history: seq<string>

    ghost function Contents(): State
      reads this
    {
      State(recorded, history)
    }

    constructor ()
      ensures Contents() == State({}, [])
    {
      recorded := {};
      history := [];
    }

    /** One transaction: the script and its row in schema_migrations together, or neither. */
    method Apply(version: string, fate: Fate) returns (committed: bool)
      modifies this
      ensures committed == (fate == Commits || fate == CrashesAfter)
      ensures Contents() == if committed then Applied(old(Contents()), version) else old(Contents())
    {
      committed := fate == Commits || fate == CrashesAfter;
      if committed {
        recorded := recorded + {version};
        history := history + [version];
      }
    }

    /** applyMigrations. */
    method ApplyMigrations(files: seq<string>, fates: seq<Fate>) returns (outcome: Outcome)
      requires |fates| == |files|
      modifies this
      ensures Contents() == RunOn(old(Contents()), files, fates)
      ensures outcome.Done? <==> Completes(old(Contents()), files, fates)
      ensures !outcome.Crashed? ==> history == old(history) + outcome.applied
    {
      ghost var start := Contents();
      var applied: seq<string> := [];
      assert files[0..] == files && fates[0..] == fates;
      for i := 0 to |files|
        invariant RunOn(start, files, fates) == RunOn(Contents(), files[i..], fates[i..])
        invariant Completes(start, files, fates) == Completes(Contents(), files[i..], fates[i..])
        invariant history == start.history + applied
      {
        assert files[i..][1..] == files[i + 1..] && fates[i..][1..] == fates[i + 1..];
        var version := Version(files[i]);
        if version in recorded { continue; }
        var committed := Apply(version, fates[i]);
        if fates[i].CrashesBefore? || fates[i].CrashesAfter? { return Crashed; }
        if !committed { return Error(applied); }
        applied := applied + [version];
      }
      outcome := Done(applied);
    }
  }

  // ----- Every history of runs -----

  datatype Start = Start(files: seq<string>, fates: seq<Fate>)

  function RunAll(s: State, starts: seq<Start>): State
    requires forall i | 0 <= i < |starts| :: |starts[i].fates| == |starts[i].files|
  {
    if starts == [] then s
    else
      var n := |starts| - 1;
      RunOn(RunAll(s, starts[..n]), starts[n].files, starts[n].fates)
  }

  /** Recorded exactly when applied, and nothing applied twice. */
  ghost predicate Consistent(s: State) {
    && (forall v :: v in s.recorded <==> v in s.history)
    && (forall i, j | 0 <= i < j < |s.history| :: s.history[i] != s.history[j])
  }

  lemma {:induction false} RunKeepsConsistent(s: State, files: seq<string>, fates: seq<Fate>)
    requires |fates| == |files| && Consistent(s)
    ensures Consistent(RunOn(s, files, fates))
    ensures s.recorded <= RunOn(s, files, fates).recorded
    decreases |files|
  {
    if files != [] {
      var v := Version(files[0]);
      if v in s.recorded {
        RunKeepsConsistent(s, files[1..], fates[1..]);
      } else if fates[0] == Commits {
        RunKeepsConsistent(Applied(s, v), files[1..], fates[1..]);
      }
    }
  }

  /** Whatever fails or crashes, and however the directory grows: every script is applied at most once, and
      is recorded exactly when it has been applied. */
  lemma {:induction false} AppliedAtMostOnce(starts: seq<Start>)
    requires forall i | 0 <= i < |starts| :: |starts[i].fates| == |starts[i].files|
    ensures Consistent(RunAll(State({}, []), starts))
  {
    if starts != [] {
      var n := |starts| - 1;
      AppliedAtMostOnce(starts[..n]);
      RunKeepsConsistent(RunAll(State({}, []), starts[..n]), starts[n].files, starts[n].fates);
    }
  }

  // ----- What one run applies -----

  /** The versions still to be applied, in file order. */
  function Pending(s: State, files: seq<string>): seq<string>
    decreases |files|
  {
    if files == [] then []
    else
      var v := Version(files[0]);
      if v in s.recorded then Pending(s, files[1..]) else [v] + Pending(Applied(s, v), files[1..])
  }

  /** A run applies a prefix of what is pending, in order, and all of it when it completes. */
  lemma {:induction false} RunAppliesPrefix(s: State, files: seq<string>, fates: seq<Fate>) returns (k: nat)
    requires |fates| == |files|
    ensures k <= |Pending(s, files)|
    ensures RunOn(s, files, fates).history == s.history + Pending(s, files)[..k]
    ensures Completes(s, files, fates) ==> k == |Pending(s, files)|
    decreases |files|
  {
    if files == [] {
      k := 0;
    } else {
      var v := Version(files[0]);
      if v in s.recorded {
        k := RunAppliesPrefix(s, files[1..], fates[1..]);
      } else if fates[0] == Commits {
        k := RunAppliesPrefix(Applied(s, v), files[1..], fates[1..]);
        k := k + 1;
        assert Pending(s, files)[..k] == [v] + Pending(Applied(s, v), files[1..])[..k - 1];
      } else {
        k := if fates[0] == CrashesAfter then 1 else 0;
      }
    }
  }

  /** Of an ascending list without repetition, pending is exactly what is not recorded. */
  lemma {:induction false} PendingIs(s: State, files: seq<string>)
    requires Ascending(files) && forall f | f in files :: HasSuffix(f)
    ensures forall v :: v in Pending(s, files) <==> v !in s.recorded && exists f :: f in files && Version(f) == v
    decreases |files|
  {
    if files != [] {
      assert files == [files[0]] + files[1..];
      var v := Version(files[0]);
      if v in s.recorded {
        PendingIs(s, files[1..]);
      } else {
        PendingIs(Applied(s, v), files[1..]);
        forall w
          ensures w in Pending(s, files) <==> w !in s.recorded && exists f :: f in files && Version(f) == w
        {
          if w == v {
            assert files[0] in files && Version(files[0]) == w;
          }
        }
      }
    }
  }

  // ----- Running again -----

  /** After a run that completed nothing is left to do, whatever would befall a transaction. */
  lemma {:induction false} RunAfterSuccess(s: State, files: seq<string>, fates: seq<Fate>)
    requires |fates| == |files| && forall f | f in files :: Version(f) in s.recorded
    ensures RunOn(s, files, fates) == s && Completes(s, files, fates)
    decreases |files|
  {
    if files != [] {
      assert files[0] in files;
      assert forall f | f in files[1..] :: f in files;
      RunAfterSuccess(s, files[1..], fates[1..]);
    }
  }

  lemma {:induction false} CompleteRunRecordsAll(s: State, files: seq<string>, fates: seq<Fate>)
    requires |fates| == |files| && Completes(s, files, fates)
    ensures forall f | f in files :: Version(f) in RunOn(s, files, fates).recorded
    ensures s.recorded <= RunOn(s, files, fates).recorded
    decreases |files|
  {
    if files != [] {
      assert files == [files[0]] + files[1..];
      var v := Version(files[0]);
      CompleteRunRecordsAll(if v in s.recorded then s else Applied(s, v), files[1..], fates[1..]);
    }
  }

  /** A start after a completed one changes nothing. */
  lemma SecondRunIsIdle(s: State, files: seq<string>, fates: seq<Fate>, again: seq<Fate>)
    requires |fates| == |files| && |again| == |files| && Completes(s, files, fates)
    ensures RunOn(RunOn(s, files, fates), files, again) == RunOn(s, files, fates)
  {
    CompleteRunRecordsAll(s, files, fates);
    RunAfterSuccess(RunOn(s, files, fates), files, again);
  }

  function AllCommit(n: nat): seq<Fate> {
    seq(n, _ => Commits)
  }

  /** A run broken off anywhere and then repeated to the end leaves what one undisturbed run leaves. */
  lemma {:induction false} InterruptedThenCompleted(s: State, files: seq<string>, fates: seq<Fate>)
    requires |fates| == |files|
    ensures RunOn(RunOn(s, files, fates), files, AllCommit(|files|)) == RunOn(s, files, AllCommit(|files|))
    decreases |files|
  {
    if files != [] {
      var v, all := Version(files[0]), AllCommit(|files|);
      assert all[1..] == AllCommit(|files| - 1);
      if v in s.recorded {
        RunGrows(s, files[1..], fates[1..]);
        InterruptedThenCompleted(s, files[1..], fates[1..]);
      } else if fates[0] == Commits {
        RunGrows(Applied(s, v), files[1..], fates[1..]);
        InterruptedThenCompleted(Applied(s, v), files[1..], fates[1..]);
      }
    }
  }

  lemma {:induction false} RunGrows(s: State, files: seq<string>, fates: seq<Fate>)
    requires |fates| == |files|
    ensures s.recorded <= RunOn(s, files, fates).recorded
    decreases |files|
  {
    if files != [] {
      var v := Version(files[0]);
      if v in s.recorded {
        RunGrows(s, files[1..], fates[1..]);
      } else if fates[0] == Commits {
        RunGrows(Applied(s, v), files[1..], fates[1..]);
      }
    }
  }

  /** Any number of broken starts over the same directory, then a complete one: as if the first start had
      gone through. */
  lemma {:induction false} StartsConverge(s: State, files: seq<string>, tries: seq<seq<Fate>>)
    requires forall i | 0 <= i < |tries| :: |tries[i]| == |files|
    ensures RunOn(Repeated(s, files, tries), files, AllCommit(|files|)) == RunOn(s, files, AllCommit(|files|))
    decreases |tries|
  {
    if tries != [] {
      StartsConverge(RunOn(s, files, tries[0]), files, tries[1..]);
      InterruptedThenCompleted(s, files, tries[0]);
    }
  }

  function Repeated(s: State, files: seq<string>, tries: seq<seq<Fate>>): State
    requires forall i | 0 <= i < |tries| :: |tries[i]| == |files|
    decreases |tries|
  {
    if tries == [] then s else Repeated(RunOn(s, files, tries[0]), files, tries[1..])
  }

  // ----- Readiness -----

  /** latestMigration. */
  function Latest(files: seq<string>): string
    requires files != []
  {
    Version(files[|files| - 1])
  }

  /** It is the version of the last file in the order of names. */
  lemma LatestIs(files: seq<string>)
    requires files != [] && Ascending(files)
    ensures exists f | f in files :: Version(f) == Latest(files) && forall g | g in files && g != f :: Less(g, f)
  {
    var f := files[|files| - 1];
    assert f in files;
    forall g | g in files && g != f
      ensures Less(g, f)
    {
      var i :| 0 <= i < |files| && files[i] == g;
    }
  }

  /** What Ready checks holds after every completed run. */
  lemma ReadyAfterCompleteRun(s: State, files: seq<string>, fates: seq<Fate>)
    requires files != [] && |fates| == |files| && Completes(s, files, fates)
    ensures Latest(files) in RunOn(s, files, fates).recorded
  {
    CompleteRunRecordsAll(s, files, fates);
    assert files[|files| - 1] in files;
  }
}
