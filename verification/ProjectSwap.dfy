/**
 * Crash-safe replacement of a project directory.
 *
 * The parent directory is a map from names to trees.  Every file operation may stop the program before
 * or after it took effect, by an Exception (which `except Exception` sees), by an Interrupt (which only
 * `finally` sees) or by a Crash (after which nothing runs).  Renames are atomic, removing a tree is not.
 * The nondeterministic assignments stand for those choices, so each contract covers every run.
 */
module ProjectSwap {
  import opened Options

  datatype Name = Project | Replacement(token: nat) | Previous(token: nat)

  // Relative paths and their contents.
  type Tree = map<string, string>

  datatype Journal = Journal(staging: Name, backup: Name) {
    predicate Safe() {
      staging.Replacement? && backup.Previous?
    }
  }

  datatype Signal = Proceed | Exception | Interrupt | Crash | UnsafeJournal | BackupMissing

  // File operations, and those that failed although nothing stood in their way.
  datatype Operation =
    | Make(name: Name) | Move(source: Name, target: Name) | Remove(name: Name)
    | Journalling | Unjournalling | Building | Writing

  datatype Fault = Fault(operation: Operation, signal: Signal)

  /** One operation, or several until the first fault: it proceeds, or the last fault is why it does not. */
  ghost predicate Stopped(before: seq<Fault>, after: seq<Fault>, s: Signal) {
    if s == Proceed then after == before
    else |after| == |before| + 1 && before <= after && after[|before|].signal == s
  }

  function Noted(before: seq<Fault>, o: Operation, s: Signal): seq<Fault> {
    if s == Proceed then before else before + [Fault(o, s)]
  }

  /** Since then no such operation failed. */
  ghost predicate NoneOf(before: seq<Fault>, after: seq<Fault>, o: Operation) {
    forall i | |before| <= i < |after| :: after[i].operation != o
  }

  ghost predicate NoCrash(before: seq<Fault>, after: seq<Fault>) {
    forall i | |before| <= i < |after| :: after[i].signal != Crash
  }

  ghost predicate PartOf(t: Tree, whole: Tree) {
    forall k | k in t :: k in whole && t[k] == whole[k]
  }

  /** What a recovery may take for a whole project: all of the last one built, or so much of it as authenticates. */
  ghost predicate Authenticated(t: Tree, staged: Option<Tree>, complete: Tree -> bool) {
    complete(t) && staged.Some? && PartOf(t, staged.value)
  }

  /** Names outside `touched` are bound as they were. */
  ghost predicate SameExcept(touched: set<Name>, before: map<Name, Tree>, after: map<Name, Tree>) {
    forall n | n !in touched :: (n in before <==> n in after) && (n in before ==> after[n] == before[n])
  }

  /** What the try block does. */
  ghost function Attempted(staging: Name, previous: Name): set<Operation> {
    {Building, Make(previous), Remove(previous), Journalling, Move(Project, previous), Move(staging, Project), Unjournalling}
  }

  lemma AttemptedAre(staging: Name, previous: Name)
    requires staging.Replacement? && previous.Previous?
    ensures {Building, Make(previous), Remove(previous), Journalling, Move(Project, previous)} <= Attempted(staging, previous)
    ensures Move(staging, Project) in Attempted(staging, previous) && Unjournalling in Attempted(staging, previous)
    ensures Move(previous, Project) !in Attempted(staging, previous)
    ensures Make(staging) !in Attempted(staging, previous) && Remove(staging) !in Attempted(staging, previous)
  {
  }

  /** A fault in the try block, and perhaps one more after an exception in the except block; the last one is how it ends. */
  ghost predicate Handled(before: seq<Fault>, after: seq<Fault>, s: Signal, staging: Name, previous: Name) {
    && |before| < |after| <= |before| + 2 && before <= after && after[|after|-1].signal == s
    && after[|before|].operation in Attempted(staging, previous)
    && (|after| == |before| + 2 ==>
          after[|before|].signal == Exception && after[|before|+1].operation in {Move(previous, Project), Unjournalling})
  }

  lemma SameStill(before: map<Name, Tree>, between: map<Name, Tree>, after: map<Name, Tree>, staging: Name, previous: Name)
    requires staging.Replacement? && previous.Previous?
    requires SameExcept({Project, staging, previous}, before, between) && SameExcept({Project, previous}, between, after)
    ensures SameExcept({Project, staging, previous}, before, after)
    ensures staging in between <==> staging in after
  {
  }

  lemma MadeOnly(before: map<Name, Tree>, after: map<Name, Tree>, staging: Name, previous: Name)
    requires after == before || after == before[staging := map[]]
    ensures SameExcept({staging}, before, after) && SameExcept({Project, staging, previous}, before, after)
  {
  }

  lemma TidiedOnly(t0: map<Name, Tree>, t1: map<Name, Tree>, t2: map<Name, Tree>, t3: map<Name, Tree>, staging: Name, previous: Name)
    requires staging.Replacement? && previous.Previous?
    requires SameExcept({staging}, t0, t1) && SameExcept({Project, staging, previous}, t1, t2) && SameExcept({staging}, t2, t3)
    ensures SameExcept({Project, staging, previous}, t0, t3)
    ensures Same(Project, t0, t1) && Same(previous, t0, t1) && Same(Project, t2, t3) && Same(previous, t2, t3)
  {
  }

  lemma NotedMeans(before: seq<Fault>, o: Operation, s: Signal)
    ensures s == Proceed ==> Noted(before, o, s) == before
    ensures Stopped(before, Noted(before, o, s), s)
    ensures s != Proceed ==> Noted(before, o, s) != before && Noted(before, o, s)[|before|].operation == o
    ensures s != Proceed ==> |Noted(before, o, s)| == |before| + 1
  {
  }

  lemma StoppedMeans(before: seq<Fault>, after: seq<Fault>, s: Signal)
    ensures Stopped(before, after, s) && s == Proceed ==> after == before
    ensures Stopped(before, after, s) && s != Proceed ==> |after| == |before| + 1
  {
  }

  lemma NotMade(before: seq<Fault>, after: seq<Fault>, o: Operation, s: Signal)
    ensures s == Proceed ==> Noted(before, o, s) == before
    ensures s != Proceed && after == Noted(before, o, s) ==>
              && before < after && |after| == |before| + 1 && after[|after|-1].signal == s && after[|before|].operation == o
              && NoCrash(before, after[..|after|-1]) && !NoneOf(before, after, o)
    ensures NoCrash(before, if before == [] then [] else before[..|before|-1])
  {
    if s != Proceed && after == Noted(before, o, s) {
      assert after[|before|].operation == o;
    }
  }

  ghost predicate Same(n: Name, before: map<Name, Tree>, after: map<Name, Tree>) {
    (n in before <==> n in after) && (n in before ==> after[n] == before[n])
  }

  // The faults of the two blocks, and perhaps one of the finally block.
  lemma FaultsOf(before: seq<Fault>, between: seq<Fault>, raised: Signal, after: seq<Fault>, s: Signal, staging: Name, previous: Name)
    requires staging.Replacement? && previous.Previous?
    requires between == before || Handled(before, between, raised, staging, previous)
    requires after == between || (after == between + [Fault(Remove(staging), s)] && raised != Crash)
    requires after == between ==> s == raised
    ensures before <= after && NoCrash(before, if after == [] then [] else after[..|after|-1])
    ensures |after| > |before| ==> after[|after|-1].signal == s
    ensures after == between <==> NoneOf(before, after, Remove(staging))
    ensures NoneOf(before, after, Make(staging)) && (after == before ==> between == before && s == raised)
    ensures NoneOf(before, after, Move(previous, Project)) ==> NoneOf(before, between, Move(previous, Project))
    ensures NoCrash(before, after) ==> s != Crash || after == before
    ensures |between| > |before| ==> after[|before|] == between[|before|]
  {
    AttemptedAre(staging, previous);
    forall i | |before| <= i < |between| ensures after[i] == between[i] {
    }
  }

  class Disk {
    var trees: map<Name, Tree>
    var journal: Option<Journal>

    // Whether a staged project authenticates: manifest, required files, recorded identity, validation.
    const complete: Tree -> bool

    // The finished form of the project built last.
    ghost var staged: Option<Tree>

    ghost var faults: seq<Fault>

    constructor (complete: Tree -> bool, project: Option<Tree>)
      ensures this.complete == complete && Safe() && journal == None && staged == None && faults == [] && Current() == project
    {
      this.complete := complete;
      trees := if project.Some? then map[Project := project.value] else map[];
      journal := None;
      staged := None;
      faults := [];
    }

    /** The project that can be had: the one in place, or the one it replaces, to which the journal leads. */
    ghost function Current(): Option<Tree>
      reads this
    {
      if Project in trees then Some(trees[Project])
      else if journal.Some? && journal.value.backup in trees then Some(trees[journal.value.backup])
      else None
    }

    /** What every step of every command keeps. */
    ghost predicate Safe()
      reads this
    {
      journal.Some? ==>
        && journal.value.Safe() && Current().Some?
        && staged.Some? && (journal.value.staging in trees ==> PartOf(trees[journal.value.staging], staged.value))
    }

    // File operations.

    // What is impossible raises; what is possible proceeds or is a fault.
    method Strike(can: bool, ghost operation: Operation) returns (s: Signal)
      modifies this`faults
      ensures s in {Proceed, Exception, Interrupt, Crash} && (s == Proceed ==> can) && (!can ==> s == Exception)
      ensures faults == if can then Noted(old(faults), operation, s) else old(faults)
    {
      s := *;
      if !can || !(s in {Proceed, Exception, Interrupt, Crash}) {
        s := Exception;
      }
      faults := if can then Noted(faults, operation, s) else faults;
    }

    // A fresh empty directory, or none.
    method MakeTemporary(name: Name) returns (s: Signal)
      modifies this`trees, this`faults
      ensures s in {Proceed, Exception, Interrupt, Crash}
      ensures s == Proceed ==> name !in old(trees)
      ensures trees == old(trees) || (name !in old(trees) && trees == old(trees)[name := map[]])
      ensures s == Proceed ==> name in trees
      ensures name in old(trees) ==> s == Exception && faults == old(faults)
      ensures name !in old(trees) ==> faults == Noted(old(faults), Make(name), s)
    {
      var taken := name in trees;
      s := Strike(!taken, Make(name));
      var effect: bool := *;
      if !taken && (s == Proceed || effect) {
        trees := trees[name := map[]];
      }
    }

    method Rename(source: Name, target: Name) returns (s: Signal)
      requires source != target
      modifies this`trees, this`faults
      ensures s in {Proceed, Exception, Interrupt, Crash}
      ensures trees == old(trees) || (source in old(trees) && target !in old(trees) && trees == Moved(old(trees), source, target))
      ensures s == Proceed ==> source in old(trees) && target in trees && source !in trees
      ensures source in old(trees) && target !in old(trees) ==>
                faults == Noted(old(faults), Move(source, target), s)
      ensures !(source in old(trees) && target !in old(trees)) ==> faults == old(faults)
    {
      var possible := source in trees && target !in trees;
      s := Strike(possible, Move(source, target));
      var effect: bool := *;
      if possible && (s == Proceed || effect) {
        trees := Moved(trees, source, target);
      }
    }

    // Removes files one by one, in any order, and the directory last.
    method RemoveTree(name: Name) returns (s: Signal)
      modifies this`trees, this`faults
      ensures s in {Proceed, Exception, Interrupt, Crash}
      ensures s == Proceed ==> name !in trees
      ensures SameExcept({name}, old(trees), trees)
      ensures name in trees ==> name in old(trees) && PartOf(trees[name], old(trees)[name])
      ensures name in old(trees) ==> faults == Noted(old(faults), Remove(name), s)
      ensures name !in old(trees) ==> faults == old(faults)
    {
      s := Strike(name in trees, Remove(name));
      var gone: bool := *;
      var kept: set<string> := *;
      if name in trees {
        var t := trees[name];
        trees := if s == Proceed || gone then trees - {name} else trees[name := map k | k in t && k in kept :: t[k]];
      }
    }

    method RemoveIfThere(name: Name) returns (s: Signal)
      modifies this`trees, this`faults
      ensures s in {Proceed, Exception, Interrupt, Crash}
      ensures s == Proceed ==> name !in trees
      ensures SameExcept({name}, old(trees), trees)
      ensures name in trees ==> name in old(trees) && PartOf(trees[name], old(trees)[name])
      ensures faults == Noted(old(faults), Remove(name), s)
    {
      s := Proceed;
      if name in trees {
        s := RemoveTree(name);
      }
    }

    // Written beside the journal, moved over it, and the directory synced: the last step may still fail.
    method WriteJournal(j: Journal) returns (s: Signal)
      modifies this`journal, this`faults
      ensures s in {Proceed, Exception, Interrupt, Crash}
      ensures s == Proceed ==> journal == Some(j)
      ensures journal == old(journal) || journal == Some(j)
      ensures faults == Noted(old(faults), Journalling, s)
    {
      s := Strike(true, Journalling);
      var effect: bool := *;
      if s == Proceed || effect {
        journal := Some(j);
      }
    }

    method UnlinkJournal() returns (s: Signal)
      modifies this`journal, this`faults
      ensures s in {Proceed, Exception, Interrupt, Crash}
      ensures s == Proceed ==> journal == None
      ensures journal == old(journal) || journal == None
      ensures faults == Noted(old(faults), Unjournalling, s)
    {
      s := Strike(true, Unjournalling);
      var effect: bool := *;
      if s == Proceed || effect {
        journal := None;
      }
    }

    // Setting up the staged project: any partial tree when interrupted, `built` when finished.
    method Build(staging: Name, built: Tree) returns (s: Signal)
      requires staging in trees
      modifies this`trees, this`staged, this`faults
      ensures s in {Proceed, Exception, Interrupt, Crash}
      ensures SameExcept({staging}, old(trees), trees) && staging in trees && staged == Some(built)
      ensures s == Proceed ==> trees[staging] == built
      ensures faults == Noted(old(faults), Building, s)
    {
      s := Strike(true, Building);
      var partial: Tree := *;
      trees := trees[staging := if s == Proceed then built else partial];
      staged := Some(built);
    }

    // Reports and training, in the project itself; stopped part way, `written` is what they got to.
    method Write(written: Tree) returns (s: Signal)
      requires journal == None
      modifies this`trees, this`faults
      ensures s in {Proceed, Exception, Interrupt, Crash}
      ensures trees == old(trees) || trees == old(trees)[Project := written]
      ensures s == Proceed ==> Project in trees && trees[Project] == written
      ensures faults == Noted(old(faults), Writing, s)
    {
      s := Strike(true, Writing);
      var effect: bool := *;
      if s == Proceed || effect {
        trees := trees[Project := written];
      }
    }

    // Recovery.

    method Recover() returns (s: Signal)
      modifies this`trees, this`journal, this`faults
      // An untrusted journal stops everything, and a journal written by a replacement never leads nowhere.
      ensures old(journal).Some? && !old(journal).value.Safe() ==>
                s == UnsafeJournal && trees == old(trees) && journal == old(journal)
      ensures s == BackupMissing <==>
                && old(journal).Some? && old(journal).value.Safe()
                && Project !in old(trees) && old(journal).value.backup !in old(trees)
      ensures s in {UnsafeJournal, BackupMissing} ==> trees == old(trees) && journal == old(journal) && faults == old(faults)
      ensures old(Safe()) ==> s !in {UnsafeJournal, BackupMissing} && Safe()
      // It stops only at an operation that failed.
      ensures old(Safe()) ==> Stopped(old(faults), faults, s)
      // The project that can be had stays, unless none is in place and an authenticated staging takes over.
      ensures old(Safe()) ==>
                || Current() == old(Current())
                || (Project !in old(trees) && old(journal).Some? && old(journal).value.staging in old(trees)
                    && Current() == Some(old(trees)[old(journal).value.staging]) && Authenticated(Current().value, staged, complete))
      // Without a journal nothing happens; with one, a completed recovery settles what it names.
      ensures old(journal).None? ==> s == Proceed && trees == old(trees) && journal == None
      ensures old(Safe()) && old(journal).Some? && s == Proceed ==>
                var j := old(journal).value;
                && journal == None && j.staging !in trees && j.backup !in trees && Project in trees
                && trees[Project] == Verdict(old(trees), j, complete)
      ensures old(journal).Some? ==>
                var j := old(journal).value;
                SameExcept({Project, j.staging, j.backup}, old(trees), trees)
    {
      if journal.None? {
        return Proceed;
      }
      if !journal.value.Safe() {
        return UnsafeJournal;
      }
      var staging, backup := journal.value.staging, journal.value.backup;
      if Project in trees {
        s := KeepProject(staging, backup);
      } else if backup in trees {
        s := SettleProject(staging, backup);
      } else {
        return BackupMissing;
      }
      if s != Proceed { return; }
      s := UnlinkJournal();
    }

    // Either the second rename completed, or the first never happened.
    method KeepProject(staging: Name, backup: Name) returns (s: Signal)
      requires journal == Some(Journal(staging, backup)) && journal.value.Safe() && Project in trees
      modifies this`trees, this`faults
      ensures s in {Proceed, Exception, Interrupt, Crash} && Stopped(old(faults), faults, s)
      ensures SameExcept({Project, staging, backup}, old(trees), trees)
      ensures Project in trees && trees[Project] == old(trees)[Project] && (old(Safe()) ==> Safe())
      ensures s == Proceed ==> staging !in trees && backup !in trees
    {
      s := RemoveIfThere(backup);
      if s != Proceed { return; }
      s := RemoveIfThere(staging);
    }

    // The first rename happened: finish with an authenticated staging, or go back.
    method SettleProject(staging: Name, backup: Name) returns (s: Signal)
      requires journal == Some(Journal(staging, backup)) && journal.value.Safe() && Project !in trees && backup in trees
      modifies this`trees, this`faults
      ensures s in {Proceed, Exception, Interrupt, Crash} && Stopped(old(faults), faults, s)
      ensures SameExcept({Project, staging, backup}, old(trees), trees)
      ensures old(Safe()) ==> Safe()
      ensures Current() == old(Current())
              || (staging in old(trees) && complete(old(trees)[staging]) && Current() == Some(old(trees)[staging]))
      ensures s == Proceed ==>
                && staging !in trees && backup !in trees && Project in trees
                && trees[Project] == Verdict(old(trees), journal.value, complete)
    {
      if staging in trees && complete(trees[staging]) {
        s := Rename(staging, Project);
        if s != Proceed { return; }
        s := RemoveTree(backup);
      } else {
        s := RemoveIfThere(staging);
        if s != Proceed { return; }
        s := Rename(backup, Project);
      }
    }

    // Replacement.

    // The try block, with the locals that the handlers look at.
    method Attempt(staging: Name, previous: Name, built: Tree, replacing: bool)
      returns (s: Signal, backup: Option<Name>, journalled: bool, installed: bool)
      requires Safe() && journal == None && replacing == (Project in trees)
      requires staging.Replacement? && staging in trees && previous.Previous?
      modifies this
      ensures s in {Proceed, Exception, Interrupt, Crash}
      ensures Safe() && staged == Some(built)
      ensures SameExcept({Project, staging, previous}, old(trees), trees)
      ensures backup.Some? ==> backup.value == previous && replacing
      ensures journal.Some? ==> journal.value == Journal(staging, previous) && replacing
      ensures installed ==> staging !in trees
      ensures Project in trees ==> trees[Project] == built || (replacing && trees[Project] == old(trees)[Project])
      ensures replacing && Project !in trees ==>
                && journal.Some? && journalled && backup == Some(previous)
                && previous in trees && trees[previous] == old(trees)[Project]
      ensures s == Proceed ==>
                journal == None && Project in trees && trees[Project] == built && staging !in trees
                && (replacing ==> previous !in trees)
      ensures Stopped(old(faults), faults, s)
              || (replacing && previous in old(trees) && s == Exception && faults == old(faults) && Project in trees)
      ensures replacing && previous in old(trees) ==> s != Proceed
      ensures faults != old(faults) ==> faults[|old(faults)|].operation in Attempted(staging, previous)
      // Stopped at the second rename, the old project is the backup.
      ensures replacing && faults != old(faults) && faults[|old(faults)|].operation == Move(staging, Project) ==>
                && journal.Some? && previous in trees && trees[previous] == old(trees)[Project]
                && (Project in trees ==> trees[Project] == built)
    {
      hide Authenticated, Attempted, Noted, Stopped;
      backup, journalled, installed := None, false, false;
      AttemptedAre(staging, previous);
      ghost var before := faults;
      s := Build(staging, built);
      NotedMeans(before, Building, s);
      if s != Proceed { return; }
      if replacing {
        s, backup, journalled := SetAside(staging, previous);
        StoppedMeans(before, faults, s);
        if s != Proceed { return; }
      }
      s, backup, journalled, installed := PutInPlace(staging, previous, built, backup, journalled);
      StoppedMeans(before, faults, s);
    }

    // The second rename, and what it leaves to do: the backup and the journal go.
    method PutInPlace(staging: Name, previous: Name, built: Tree, aside: Option<Name>, noted: bool)
      returns (s: Signal, backup: Option<Name>, journalled: bool, installed: bool)
      requires Safe() && staged == Some(built) && staging.Replacement? && previous.Previous?
      requires Project !in trees && staging in trees && trees[staging] == built
      requires if aside.Some? then aside.value == previous && noted && journal == Some(Journal(staging, previous)) && previous in trees
               else journal == None && !noted
      modifies this`trees, this`journal, this`faults
      ensures s in {Proceed, Exception, Interrupt, Crash} && Safe()
      ensures SameExcept({Project, staging, previous}, old(trees), trees)
      ensures backup == aside || backup == None
      ensures journal == old(journal) || journal == None
      ensures installed ==> staging !in trees
      ensures Project in trees ==> trees[Project] == built
      ensures aside.Some? && Project !in trees ==>
                journal == old(journal) && journalled && backup == aside && previous in trees && trees[previous] == old(trees)[previous]
      ensures s == Proceed ==>
                journal == None && Project in trees && staging !in trees && (aside.Some? ==> previous !in trees)
      ensures Stopped(old(faults), faults, s)
      ensures faults != old(faults) ==>
                faults[|old(faults)|].operation in {Move(staging, Project), Remove(previous), Unjournalling}
      ensures aside.Some? && faults != old(faults) && faults[|old(faults)|].operation == Move(staging, Project) ==>
                journal == old(journal) && previous in trees && trees[previous] == old(trees)[previous]
    {
      hide Authenticated, Noted, Stopped;
      backup, journalled, installed := aside, noted, false;
      ghost var before := faults;
      s := Rename(staging, Project);
      NotedMeans(before, Move(staging, Project), s);
      if s != Proceed { return; }
      installed := true;
      if backup.Some? {
        s := RemoveTree(previous);
        NotedMeans(before, Remove(previous), s);
        if s != Proceed { return; }
        backup := None;
        s := UnlinkJournal();
        NotedMeans(before, Unjournalling, s);
        if s != Proceed { return; }
        journalled := false;
      }
    }

    // Reserve a name for the backup, record both names, and move the old project there.
    method SetAside(staging: Name, previous: Name) returns (s: Signal, backup: Option<Name>, journalled: bool)
      requires Safe() && journal == None && Project in trees
      requires staging.Replacement? && staging in trees && staged == Some(trees[staging]) && previous.Previous?
      modifies this`trees, this`journal, this`faults
      ensures s in {Proceed, Exception, Interrupt, Crash} && Safe()
      ensures Stopped(old(faults), faults, s)
              || (previous in old(trees) && s == Exception && faults == old(faults) && Project in trees)
      ensures previous in old(trees) ==> s != Proceed
      ensures faults != old(faults) ==>
                faults[|old(faults)|].operation in {Make(previous), Remove(previous), Journalling, Move(Project, previous)}
      ensures SameExcept({Project, previous}, old(trees), trees)
      ensures backup.Some? ==> backup.value == previous
      ensures journal.Some? ==> journal.value == Journal(staging, previous)
      ensures Project in trees ==> s != Proceed && trees[Project] == old(trees)[Project]
      ensures Project !in trees ==>
                && journal.Some? && journalled && backup == Some(previous)
                && previous in trees && trees[previous] == old(trees)[Project]
    {
      backup, journalled := None, false;
      s := MakeTemporary(previous);
      if s != Proceed { return; }
      backup := Some(previous);
      s := RemoveTree(previous);
      if s != Proceed { return; }
      s := WriteJournal(Journal(staging, previous));
      if s != Proceed { return; }
      journalled := true;
      s := Rename(Project, previous);
    }

    // The try block and its except block.
    method Guarded(staging: Name, previous: Name, built: Tree, replacing: bool) returns (s: Signal, installed: bool)
      requires Safe() && journal == None && replacing == (Project in trees)
      requires staging.Replacement? && staging in trees && previous.Previous?
      modifies this
      ensures s in {Proceed, Exception, Interrupt, Crash}
      ensures Safe() && staged == Some(built)
      ensures SameExcept({Project, staging, previous}, old(trees), trees)
      ensures journal.Some? ==> journal.value == Journal(staging, previous) && replacing
      ensures installed ==> staging !in trees
      ensures Project in trees ==> trees[Project] == built || (replacing && trees[Project] == old(trees)[Project])
      ensures replacing && Project !in trees ==>
                journal.Some? && previous in trees && trees[previous] == old(trees)[Project]
      ensures s == Proceed ==>
                journal == None && Project in trees && trees[Project] == built && staging !in trees
                && (replacing ==> previous !in trees)
      ensures faults == old(faults) ==>
                s == (if replacing && previous in old(trees) then Exception else Proceed) && (replacing ==> Project in trees)
      ensures faults != old(faults) ==> Handled(old(faults), faults, s, staging, previous)
      ensures replacing && faults != old(faults) && faults[|old(faults)|].signal == Exception ==>
                NoneOf(old(faults), faults, Move(previous, Project)) ==> Project in trees
      ensures replacing && faults == old(faults) + [Fault(Move(staging, Project), Exception)] ==>
                Project in trees && (trees[Project] == built || (journal == None && previous !in trees))
      ensures replacing && faults == old(faults) + [Fault(Move(staging, Project), Interrupt)] ==>
                journal.Some? && previous in trees && trees[previous] == old(trees)[Project]
    {
      hide Authenticated, Attempted, SameExcept;
      AttemptedAre(staging, previous);
      var backup, journalled;
      s, backup, journalled, installed := Attempt(staging, previous, built, replacing);
      ghost var before, tried := trees, faults;
      if s == Exception && backup.Some? && previous in trees && Project !in trees {
        s := RollBack(previous, journalled);
        SameStill(old(trees), before, trees, staging, previous);
      }
      assert faults == tried || |faults| == |tried| + 1;
    }

    method Install(token: nat, backupToken: nat, built: Tree, replacing: bool) returns (s: Signal)
      requires Safe() && journal == None && replacing == (Project in trees)
      modifies this
      ensures s in {Proceed, Exception, Interrupt, Crash}
      ensures Safe() && (staged == old(staged) || staged == Some(built))
      ensures Current() == old(Current()) || Current() == Some(built)
      // A normal return means the new tree, with nothing left beside it.
      ensures s == Proceed ==>
                && Project in trees && trees[Project] == built && journal == None
                && Replacement(token) !in trees && (replacing ==> Previous(backupToken) !in trees)
      // Whatever happened, the old tree or the whole new one is in place, or the old one is named by the journal.
      ensures Project in trees ==> trees[Project] == built || (replacing && trees[Project] == old(trees)[Project])
      ensures replacing && Project !in trees ==>
                && journal == Some(Journal(Replacement(token), Previous(backupToken)))
                && Previous(backupToken) in trees && trees[Previous(backupToken)] == old(trees)[Project]
      ensures SameExcept({Project, Replacement(token), Previous(backupToken)}, old(trees), trees)
      // It ends as the last fault did, and stops without one only when a name was taken.
      ensures old(faults) <= faults && NoCrash(old(faults), if faults == [] then [] else faults[..|faults|-1])
      ensures |faults| > |old(faults)| ==> faults[|faults|-1].signal == s
      ensures faults == old(faults) ==>
                s == if Replacement(token) in old(trees) || (replacing && Previous(backupToken) in old(trees)) then Exception else Proceed
      // An exception brings the old project back, unless renaming it back fails too.
      ensures replacing && |faults| > |old(faults)| && faults[|old(faults)|].signal == Exception ==>
                NoneOf(old(faults), faults, Move(Previous(backupToken), Project)) ==> Project in trees
      ensures replacing && faults == old(faults) + [Fault(Move(Replacement(token), Project), Exception)] ==>
                && Project in trees
                && (trees[Project] == built || (journal == None && Previous(backupToken) !in trees))
      // Nothing else does.
      ensures replacing && faults == old(faults) + [Fault(Move(Replacement(token), Project), Interrupt)] ==>
                && journal.Some? && Previous(backupToken) in trees && trees[Previous(backupToken)] == old(trees)[Project]
      // The staging directory goes, whatever happened, unless making or removing it fails or nothing runs any more.
      ensures Replacement(token) !in old(trees) && NoCrash(old(faults), faults)
              && NoneOf(old(faults), faults, Make(Replacement(token))) && NoneOf(old(faults), faults, Remove(Replacement(token))) ==>
                Replacement(token) !in trees
    {
      hide SameExcept, Attempted, Authenticated, Handled, Moved, NoneOf, NoCrash, Noted;
      var staging, previous := Replacement(token), Previous(backupToken);
      ghost var t0, f0 := trees, faults;
      s := MakeTemporary(staging);
      MadeOnly(t0, trees, staging, previous);
      NotMade(f0, faults, Make(staging), s);
      if s != Proceed { return; }
      ghost var t1 := trees;
      var installed;
      s, installed := Guarded(staging, previous, built, replacing);
      ghost var t2, f2, s2 := trees, faults, s;
      s := Tidy(staging, installed, s);
      TidiedOnly(t0, t1, t2, trees, staging, previous);
      FaultsOf(f0, f2, s2, faults, s, staging, previous);
    }

    // The finally block; a failure there takes the place of what was raised before.
    method Tidy(staging: Name, installed: bool, raised: Signal) returns (s: Signal)
      requires raised in {Proceed, Exception, Interrupt, Crash} && (installed ==> staging !in trees)
      modifies this`trees, this`faults
      ensures s in {Proceed, Exception, Interrupt, Crash}
      ensures SameExcept({staging}, old(trees), trees)
      ensures staging in trees ==> staging in old(trees) && PartOf(trees[staging], old(trees)[staging])
      ensures raised == Crash ==> s == raised && trees == old(trees) && faults == old(faults)
      ensures faults == old(faults) ==> s == raised && (raised != Crash ==> staging !in trees)
      ensures faults != old(faults) ==> s != Proceed && faults == old(faults) + [Fault(Remove(staging), s)]
    {
      s := raised;
      if s == Crash { return; }
      if staging in trees && !installed {
        var t := RemoveTree(staging);
        s := if t == Proceed then s else t;
      }
    }

    // The except block: put the old tree back and forget the journal; the exception then goes on.
    method RollBack(previous: Name, journalled: bool) returns (s: Signal)
      requires Safe() && previous in trees && Project !in trees && previous.Previous?
      requires journal.Some? ==> journalled && journal.value.backup == previous
      modifies this`trees, this`journal, this`faults
      ensures s in {Exception, Interrupt, Crash} && Safe()
      ensures SameExcept({Project, previous}, old(trees), trees)
      ensures Project in trees ==> trees[Project] == old(trees)[previous]
      ensures Project !in trees ==> trees == old(trees) && journal == old(journal)
      ensures journal == old(journal) || journal == None
      ensures faults == old(faults) ==> s == Exception
      ensures faults == old(faults) || (Stopped(old(faults), faults, s)
                                        && faults[|old(faults)|].operation in {Move(previous, Project), Unjournalling})
      ensures NoneOf(old(faults), faults, Move(previous, Project)) ==> Project in trees && previous !in trees
      ensures faults == old(faults) ==> journal == None
    {
      s := Rename(previous, Project);
      if s != Proceed { return; }
      s := Exception;
      if journalled {
        var t := UnlinkJournal();
        s := if t == Proceed then Exception else t;
      }
    }
  }

  function Moved(trees: map<Name, Tree>, source: Name, target: Name): map<Name, Tree>
    requires source in trees
  {
    trees[target := trees[source]] - {source}
  }

  /** Which tree a recovery keeps: the one in place, else an authenticated staging, else the backup. */
  ghost function Verdict(trees: map<Name, Tree>, j: Journal, complete: Tree -> bool): Tree
    requires Project in trees || j.backup in trees
  {
    if Project in trees then trees[Project]
    else if j.staging in trees && complete(trees[j.staging]) then trees[j.staging]
    else trees[j.backup]
  }

  // Commands.

  datatype Request = Create | Replace | Resume

  /**
   * What a command asks for, whether it is refused for another reason than the project's being there or not,
   * whether its inputs are valid, what it would build, and what its reports and training make of the project.
   */
  datatype Command = Command(
    request: Request, refused: bool, valid: bool, token: nat, backupToken: nat, built: Tree, written: Tree)

  /** One command, stopped anywhere.  The ghost result is the project that a finished command trained. */
  method Execute(disk: Disk, c: Command) returns (s: Signal, ghost trained: Option<Tree>)
    requires disk.Safe()
    modifies disk
    ensures disk.Safe() && (disk.staged == old(disk.staged) || disk.staged == Some(c.built))
    ensures Follows(old(disk.Current()), disk.Current(), c, old(disk.staged), disk.complete)
    ensures s == Proceed ==>
              && disk.Current() == Some(c.written) && Project in disk.trees && disk.journal == None
              && c.valid && (c.request == Create <==> old(disk.Current()).None?)
              && if c.request == Resume then trained == old(disk.Current()) || Recovered(trained, old(disk.staged), disk.complete)
                 else trained == Some(c.built)
    // It does what it was asked for unless that is refused, an operation fails or a name is taken.
    ensures s != Proceed ==>
              || disk.faults != old(disk.faults) || c.refused || !c.valid
              || (c.request == Create <==> old(disk.Current()).Some?)
              || (c.request != Resume && Replacement(c.token) in old(disk.trees))
              || (c.request == Replace && Previous(c.backupToken) in old(disk.trees))
  {
    trained := None;
    s := disk.Recover();
    if s != Proceed { return; }
    if c.refused || (c.request == Create) == (Project in disk.trees) {
      return Exception, None;
    }
    if !c.valid {
      // What is wrong with the input is reported inside the project, which that may bring into being.
      var _ := disk.Write(c.written);
      return Exception, None;
    }
    if c.request != Resume {
      s := disk.Install(c.token, c.backupToken, c.built, c.request == Replace);
      if s != Proceed { return; }
    }
    trained := Some(disk.trees[Project]);
    s := disk.Write(c.written);
  }

  ghost predicate Recovered(t: Option<Tree>, staged: Option<Tree>, complete: Tree -> bool) {
    t.Some? && Authenticated(t.value, staged, complete)
  }

  /** A project that was there is not lost, and one that was not comes from this command or an authenticated staging. */
  ghost predicate Follows(was: Option<Tree>, now: Option<Tree>, c: Command, staged: Option<Tree>, complete: Tree -> bool) {
    && (was.Some? ==> now.Some?)
    && (now.Some? && now != was ==> now.value == c.built || now.value == c.written || Authenticated(now.value, staged, complete))
  }

  /** states[i] is the project before command i; each follows from the one before and from what was built so far. */
  ghost predicate Chain(states: seq<Option<Tree>>, commands: seq<Command>, complete: Tree -> bool) {
    && |states| == |commands| + 1
    && forall i | 0 <= i < |commands| :: Leads(states[i], states[i+1], commands[i], commands[..i], complete)
  }

  ghost predicate Leads(was: Option<Tree>, now: Option<Tree>, c: Command, earlier: seq<Command>, complete: Tree -> bool) {
    exists staged :: BuiltBy(staged, earlier) && Follows(was, now, c, staged, complete)
  }

  ghost predicate BuiltBy(staged: Option<Tree>, commands: seq<Command>) {
    staged.Some? ==> exists c :: c in commands && c.built == staged.value
  }

  /** The first project, what some command built or wrote, or an authenticated part of what one built. */
  ghost predicate Descends(t: Tree, first: Option<Tree>, commands: seq<Command>, complete: Tree -> bool) {
    || first == Some(t)
    || exists c :: c in commands && (t == c.built || t == c.written || Authenticated(t, Some(c.built), complete))
  }

  lemma ChainPrefix(states: seq<Option<Tree>>, commands: seq<Command>, complete: Tree -> bool)
    requires Chain(states, commands, complete) && commands != []
    ensures Chain(states[..|commands|], commands[..|commands|-1], complete)
  {
    var n := |commands| - 1;
    forall i: nat | i < n
      ensures Leads(states[..n+1][i], states[..n+1][i+1], commands[..n][i], commands[..n][..i], complete)
    {
      assert commands[..n][..i] == commands[..i];
    }
  }

  lemma LeadDescends(was: Option<Tree>, now: Option<Tree>, commands: seq<Command>, n: nat, first: Option<Tree>, complete: Tree -> bool)
    requires n < |commands| && Leads(was, now, commands[n], commands[..n], complete)
    requires was.Some? ==> Descends(was.value, first, commands[..n], complete)
    ensures now.Some? ==> Descends(now.value, first, commands[..n+1], complete)
    ensures was.Some? ==> now.Some?
  {
    assert commands[..n+1] == commands[..n] + [commands[n]];
  }

  /** Whatever project there is descends from the first or from a command before, and it is never lost. */
  lemma {:induction false} ChainDescends(states: seq<Option<Tree>>, commands: seq<Command>, complete: Tree -> bool)
    requires Chain(states, commands, complete)
    ensures forall i, j | 0 <= i <= j < |states| :: states[i].Some? ==> states[j].Some?
    ensures states[|commands|].Some? ==> Descends(states[|commands|].value, states[0], commands, complete)
  {
    hide Leads, Descends;
    if commands == [] {
      DescendsFromFirst(states[0], complete);
    } else {
      var n := |commands| - 1;
      ChainPrefix(states, commands, complete);
      ChainDescends(states[..n+1], commands[..n], complete);
      LeadDescends(states[n], states[n+1], commands, n, states[0], complete);
      assert commands[..n+1] == commands;
    }
  }

  lemma DescendsFromFirst(first: Option<Tree>, complete: Tree -> bool)
    ensures first.Some? ==> Descends(first.value, first, [], complete)
  {
  }

  /** Any number of commands, each stopped anywhere, on a disk that begins with a project or without one. */
  method Run(complete: Tree -> bool, first: Option<Tree>, commands: seq<Command>)
    returns (disk: Disk, ghost states: seq<Option<Tree>>)
    ensures fresh(disk) && disk.complete == complete && disk.Safe() && BuiltBy(disk.staged, commands)
    ensures Chain(states, commands, complete) && states[0] == first && states[|commands|] == disk.Current()
  {
    disk := new Disk(complete, first);
    states := [first];
    for i := 0 to |commands|
      invariant fresh(disk) && disk.complete == complete && disk.Safe() && BuiltBy(disk.staged, commands[..i])
      invariant Chain(states, commands[..i], complete) && states[0] == first && states[i] == disk.Current()
    {
      ghost var staged := disk.staged;
      var _, _ := Execute(disk, commands[i]);
      Extend(states, commands, i, disk.Current(), staged, disk.staged, complete);
      states := states + [disk.Current()];
    }
    assert commands[..|commands|] == commands;
  }

  lemma Extend(states: seq<Option<Tree>>, commands: seq<Command>, i: nat, now: Option<Tree>,
               staged: Option<Tree>, staged': Option<Tree>, complete: Tree -> bool)
    requires i < |commands| && Chain(states, commands[..i], complete) && BuiltBy(staged, commands[..i])
    requires Follows(states[i], now, commands[i], staged, complete)
    requires staged' == staged || staged' == Some(commands[i].built)
    ensures Chain(states + [now], commands[..i+1], complete) && BuiltBy(staged', commands[..i+1])
  {
    hide Follows, BuiltBy;
    var next, more := states + [now], commands[..i+1];
    assert Leads(states[i], now, commands[i], commands[..i], complete);
    forall k: nat | k <= i ensures Leads(next[k], next[k+1], more[k], more[..k], complete) {
      assert more[..k] == commands[..k];
      if k < i {
        assert commands[..i][..k] == commands[..k];
        assert Leads(states[k], states[k+1], commands[..i][k], commands[..i][..k], complete);
      }
    }
    StillBuilt(staged, staged', commands, i);
  }

  lemma StillBuilt(staged: Option<Tree>, staged': Option<Tree>, commands: seq<Command>, i: nat)
    requires i < |commands| && BuiltBy(staged, commands[..i])
    requires staged' == staged || staged' == Some(commands[i].built)
    ensures BuiltBy(staged', commands[..i+1])
  {
    assert commands[..i+1] == commands[..i] + [commands[i]];
  }

  /**
   * After any history, one recovery that is left to finish forgets the journal and has in place, whenever
   * there ever was a project, what the history left as the current one, or the last replacement so far as
   * it authenticates; either way a descendant of the first project or of a command.
   */
  method RunThenRecover(complete: Tree -> bool, first: Option<Tree>, commands: seq<Command>)
    returns (disk: Disk, s: Signal, ghost states: seq<Option<Tree>>)
    ensures s in {Proceed, Exception, Interrupt, Crash}
    ensures s != Proceed ==> disk.faults != [] && disk.faults[|disk.faults|-1].signal == s
    ensures Chain(states, commands, complete) && states[0] == first
    ensures s == Proceed ==> disk.journal == None
    ensures s == Proceed && Project in disk.trees ==>
              states[|commands|] == Some(disk.trees[Project]) || Authenticated(disk.trees[Project], disk.staged, complete)
    ensures s == Proceed && (exists i :: 0 <= i < |states| && states[i].Some?) ==> Project in disk.trees
    ensures s == Proceed && Project in disk.trees ==> Descends(disk.trees[Project], first, commands, complete)
  {
    disk, states := Run(complete, first, commands);
    ChainDescends(states, commands, complete);
    s := disk.Recover();
    assert commands[..|commands|] == commands;
  }
}
