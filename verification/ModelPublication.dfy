/**
 * Publishing a set of model files, and restoring a checkpoint on top of it.
 *
 * Any file operation may raise before or after it took effect; the process itself does not die.  A
 * directory is a map from names to entries.  File contents stand for their digests.
 */
module ModelPublication {
  import opened Options

  type Data = string

  datatype Target = ToFile(data: Data) | ToDirectory | Dangling

  datatype Entry = Regular(data: Data) | Link(target: Target) | Directory {
    // The tests that follow links.
    predicate IsFile() {
      Regular? || (Link? && target.ToFile?)
    }

    predicate IsDir() {
      Directory? || (Link? && target.ToDirectory?)
    }

    function Contents(): Data
      requires IsFile()
    {
      if Regular? then data else target.data
    }
  }

  type Dir = map<string, Entry>

  datatype Cause =
    | Conflict                      // a name is both published and removed
    | OverDirectory                 // a name is taken by a directory
    | Opening                       // the staging directory could not be made
    | Preparing                     // the caller's block, or taking the backups
    | Publishing                    // an error in publication, rolled back
    | RollbackFailed                // an error in the rollback itself
    | Discarding(published: bool)   // removing the staging directory

  datatype Outcome = Returned | Raised(cause: Cause)

  predicate IsFileIn(d: Dir, name: string) {
    name in d && d[name].IsFile()
  }

  /** No name is bound to something else than before. */
  ghost predicate SameOutside(names: set<string>, before: Dir, after: Dir) {
    forall n | n !in names :: (n in before <==> n in after) && (n in before ==> after[n] == before[n])
  }

  ghost predicate SameAt(n: string, before: Dir, after: Dir) {
    (n in before <==> n in after) && (n in before ==> after[n] == before[n])
  }

  ghost predicate NoRepeats(s: seq<string>) {
    forall i, j | 0 <= i < j < |s| :: s[i] != s[j]
  }

  /** No name of an existing file comes twice. */
  ghost predicate ExistingOnce(s: seq<string>, files: Dir) {
    forall i, j | 0 <= i < j < |s| && s[i] == s[j] :: s[i] !in files
  }

  function Elements(s: seq<string>): set<string> {
    set n | n in s
  }

  /** Every captured original is at its destination or still in the backup. */
  ghost predicate Kept(originals: set<string>, before: Dir, files: Dir, backup: Dir) {
    forall n | n in originals :: n in before &&
      ((n in files && files[n] == before[n]) || (n in backup && backup[n] == before[n]))
  }

  // The names in `done` are restored; the backups of the others are untouched.
  ghost predicate Restoring(originals: set<string>, before: Dir, done: set<string>, files: Dir, backup: Dir) {
    && (forall n | n in done :: SameAt(n, before, files))
    && (forall n | n in originals && n !in done :: n in backup)
    && (forall n | n in originals && n in backup :: n in before && backup[n] == before[n])
  }

  ghost predicate UsedUp(names: set<string>, backup: Dir) {
    forall n | n in names :: n !in backup
  }

  /** The rollback down to the i-th name. */
  ghost predicate RolledBack(affected: seq<string>, i: nat, originals: set<string>, before: Dir, done: set<string>, files: Dir, backup: Dir) {
    && i <= |affected| && (forall k | i <= k < |affected| :: affected[k] in done)
    && (forall n | n in done :: exists k :: i <= k < |affected| && affected[k] == n)
    && Restoring(originals, before, done, files, backup)
    && UsedUp(done * originals, backup) && ExistingOnce(affected[i..], before)
  }

  lemma BeginRollback(affected: seq<string>, originals: set<string>, before: Dir, files: Dir, backup: Dir)
    requires originals == Elements(affected) * before.Keys
    requires forall n | n in originals :: n in backup && backup[n] == before[n]
    ensures RolledBack(affected, |affected|, originals, before, {}, files, backup)
    ensures Kept(originals, before, files, backup)
  {
  }

  // A name restored, or perhaps not.
  lemma RestoreOne(affected: seq<string>, i: nat, originals: set<string>, before: Dir, done: set<string>,
                   files: Dir, backup: Dir, files': Dir, backup': Dir)
    requires i < |affected| && RolledBack(affected, i + 1, originals, before, done, files, backup)
    requires Kept(originals, before, files, backup) && SameOutside(Elements(affected), before, files)
    requires var n := affected[i];
             && (n in before <==> n in originals)
             && (if n in originals then n in backup && files' == files[n := backup[n]] && backup' == backup - {n}
                 else files' == files - {n} && backup' == backup)
    ensures RolledBack(affected, i, originals, before, done + {affected[i]}, files', backup')
    ensures Kept(originals, before, files', backup') && SameOutside(Elements(affected), before, files')
  {
    hide ExistingOnce;
    OnceMore(affected, i, done, originals, before, backup);
  }

  // Its backup was still there, so it was not restored before.
  lemma OnceMore(affected: seq<string>, i: nat, done: set<string>, originals: set<string>, before: Dir, backup: Dir)
    requires i < |affected| && UsedUp(done * originals, backup) && ExistingOnce(affected[i+1..], before)
    requires forall k | i < k < |affected| :: affected[k] in done
    requires affected[i] in before ==> affected[i] in originals && affected[i] in backup
    ensures ExistingOnce(affected[i..], before)
  {
    var rest := affected[i..];
    forall j, k | 0 <= j < k < |rest| && rest[j] == rest[k] ensures rest[j] !in before {
      if j > 0 {
        assert rest[j] == affected[i+1..][j-1] && rest[k] == affected[i+1..][k-1];
      } else {
        assert rest[k] == affected[i+k] && affected[i+k] in done;
      }
    }
  }

  // What stands in the way of restoring a name is that it was restored already.
  lemma CanRestore(affected: seq<string>, i: nat, originals: set<string>, before: Dir, done: set<string>, files: Dir, backup: Dir)
    requires i < |affected| && RolledBack(affected, i + 1, originals, before, done, files, backup)
    requires originals == Elements(affected) * before.Keys && NoDirectory(affected, files) && NoDirectory(affected, before)
    ensures affected[i] in originals && affected[i] !in backup ==> !ExistingOnce(affected, before)
    ensures affected[i] in files ==> !files[affected[i]].Directory?
    ensures affected[i] in originals && affected[i] in backup ==> NoDirectory(affected, files[affected[i] := backup[affected[i]]])
    ensures NoDirectory(affected, files - {affected[i]})
  {
    var n := affected[i];
    if n in originals && n !in backup {
      assert n in done;
      var k :| i < k < |affected| && affected[k] == n;
      assert affected[i] == affected[k];
    }
  }

  lemma EndRollback(affected: seq<string>, originals: set<string>, before: Dir, done: set<string>, files: Dir, backup: Dir)
    requires RolledBack(affected, 0, originals, before, done, files, backup) && SameOutside(Elements(affected), before, files)
    ensures files == before && ExistingOnce(affected, before)
  {
    assert affected[0..] == affected;
    forall n ensures SameAt(n, before, files) {
    }
  }

  lemma NotDirectories(names: seq<string>, files: Dir)
    requires forall n | n in names && n in files :: !files[n].IsDir()
    ensures NoDirectory(names, files)
  {
  }

  lemma UnchangedSoFar(names: set<string>, files: Dir)
    ensures SameOutside(names, files, files)
  {
  }

  lemma RepeatedFilenames(filenames: seq<string>, remove: seq<string>, files: Dir)
    ensures !ExistingOnce(filenames, files) ==> !NoRepeats(filenames) && !ExistingOnce(filenames + remove, files)
  {
    if ExistingOnce(filenames + remove, files) {
      forall i, j | 0 <= i < j < |filenames| && filenames[i] == filenames[j] ensures filenames[i] !in files {
        assert (filenames + remove)[i] == filenames[i] && (filenames + remove)[j] == filenames[j];
      }
    }
  }

  /** Everything named was published as staged, or removed, and nothing else changed. */
  ghost predicate Published(filenames: seq<string>, remove: seq<string>, candidate: Dir, before: Dir, files: Dir) {
    && (forall n | n in filenames :: n in candidate && n in files && files[n] == candidate[n])
    && (forall n | n in remove :: n !in files)
    && SameOutside(Elements(filenames + remove), before, files)
  }

  /** The caller's block staged every file to publish, and left the name of the backup free. */
  ghost predicate StagedAll(filenames: seq<string>, staging: Dir) {
    "backup" !in staging && forall n | n in filenames :: IsFileIn(staging, n)
  }

  ghost predicate NoDirectory(names: seq<string>, files: Dir) {
    forall n | n in names && n in files :: !files[n].Directory?
  }

  // The first i files were replaced, each once; the others wait.
  ghost predicate StillStaged(filenames: seq<string>, i: nat, candidate: Dir, staging: Dir) {
    && i <= |filenames| && NoRepeats(filenames[..i])
    && (forall n | n in filenames && n !in filenames[..i] :: n in staging)
    && (forall n | n in filenames[..i] :: n !in staging)
    && (forall n | n in filenames && n in staging :: n in candidate && staging[n] == candidate[n] && candidate[n].IsFile())
  }

  ghost predicate Installed(filenames: seq<string>, i: nat, candidate: Dir, files: Dir) {
    i <= |filenames| && forall n | n in filenames[..i] :: n in candidate && n in files && files[n] == candidate[n]
  }

  lemma BeginPublication(filenames: seq<string>, remove: seq<string>, candidate: Dir, staging: Dir, files: Dir)
    requires StagedAll(filenames, candidate) && staging == candidate["backup" := Directory]
    ensures StillStaged(filenames, 0, candidate, staging) && Installed(filenames, 0, candidate, files)
    ensures SameOutside(Elements(filenames + remove), files, files)
  {
  }

  lemma CanReplace(filenames: seq<string>, remove: seq<string>, i: nat, candidate: Dir, staging: Dir, files: Dir)
    requires i < |filenames| && StillStaged(filenames, i, candidate, staging) && NoDirectory(filenames + remove, files)
    ensures filenames[i] in files ==> !files[filenames[i]].Directory?
    ensures filenames[i] !in staging ==> !NoRepeats(filenames)
  {
    assert filenames[i] in filenames + remove;
    if filenames[i] !in staging {
      var k :| 0 <= k < i && filenames[..i][k] == filenames[i];
      assert filenames[k] == filenames[i];
    }
  }

  lemma ReplaceOne(filenames: seq<string>, remove: seq<string>, i: nat, candidate: Dir, before: Dir, staging: Dir, files: Dir)
    requires i < |filenames| && StillStaged(filenames, i, candidate, staging) && Installed(filenames, i, candidate, files)
    requires SameOutside(Elements(filenames + remove), before, files) && NoDirectory(filenames + remove, files)
    ensures filenames[i] in staging ==>
              var n := filenames[i];
              var files', staging' := files[n := staging[n]], staging - {n};
              && StillStaged(filenames, i + 1, candidate, staging') && Installed(filenames, i + 1, candidate, files')
              && SameOutside(Elements(filenames + remove), before, files') && NoDirectory(filenames + remove, files')
  {
    hide SameOutside, NoDirectory;
    var n := filenames[i];
    if n in staging {
      WriteInside(filenames, remove, n, candidate, before, staging, files);
      var done, now := filenames[..i], filenames[..i+1];
      assert now == done + [n];
      assert n !in done;
      forall j, k | 0 <= j < k < |now| ensures now[j] != now[k] {
        assert k < i ==> now[j] == done[j] && now[k] == done[k];
        assert k == i ==> now[j] == done[j] && done[j] in done;
      }
    }
  }

  lemma WriteInside(filenames: seq<string>, remove: seq<string>, n: string, candidate: Dir, before: Dir, staging: Dir, files: Dir)
    requires n in filenames && n in staging && n in candidate && staging[n] == candidate[n] && candidate[n].IsFile()
    requires SameOutside(Elements(filenames + remove), before, files) && NoDirectory(filenames + remove, files)
    ensures SameOutside(Elements(filenames + remove), before, files[n := staging[n]])
    ensures NoDirectory(filenames + remove, files[n := staging[n]])
  {
    assert n in Elements(filenames + remove);
    var after := files[n := staging[n]];
    assert after[n] == candidate[n] && !after[n].Directory?;
    forall m | m in filenames + remove && m in after && m != n ensures !after[m].Directory? {
      assert m in files && after[m] == files[m];
    }
  }

  lemma NothingLeft(filenames: seq<string>, candidate: Dir, staging: Dir, files: Dir)
    requires StillStaged(filenames, |filenames|, candidate, staging)
    ensures NoRepeats(filenames)
  {
    assert filenames[..|filenames|] == filenames;
  }

  lemma CanRemove(filenames: seq<string>, remove: seq<string>, i: nat, candidate: Dir, before: Dir, files: Dir)
    requires i < |remove| && Elements(filenames) * Elements(remove) == {}
    requires Installed(filenames, |filenames|, candidate, files)
    requires SameOutside(Elements(filenames + remove), before, files) && NoDirectory(filenames + remove, files)
    ensures remove[i] in files ==> !files[remove[i]].Directory?
    ensures Installed(filenames, |filenames|, candidate, files - {remove[i]})
    ensures SameOutside(Elements(filenames + remove), before, files - {remove[i]})
    ensures NoDirectory(filenames + remove, files - {remove[i]})
  {
    var n := remove[i];
    assert n in filenames + remove && n in Elements(remove) && n in Elements(filenames + remove);
    forall m | m in filenames[..|filenames|] ensures m != n {
      assert m in Elements(filenames) && m !in Elements(filenames) * Elements(remove);
    }
  }

  lemma AllInstalled(filenames: seq<string>, remove: seq<string>, candidate: Dir, before: Dir, files: Dir)
    requires Installed(filenames, |filenames|, candidate, files) && SameOutside(Elements(filenames + remove), before, files)
    requires forall n | n in remove :: n !in files
    ensures Published(filenames, remove, candidate, before, files)
  {
    assert filenames[..|filenames|] == filenames;
  }

  class ModelDir {
    var files: Dir
    var staging: Dir
    var backup: Dir

    // How many operations failed although nothing stood in their way.
    ghost var faults: nat

    constructor (files: Dir)
      ensures this.files == files && faults == 0
    {
      this.files := files;
      staging, backup, faults := map[], map[], 0;
    }

    // What is impossible raises without effect; what is possible may raise, before or after it took effect.
    method Strike(can: bool) returns (raised: bool, effect: bool)
      modifies this`faults
      ensures !can ==> raised && !effect
      ensures !raised ==> effect
      ensures faults == old(faults) + if can && raised then 1 else 0
    {
      raised, effect := *, *;
      raised, effect := raised || !can, can && (effect || !raised);
      faults := faults + if can && raised then 1 else 0;
    }

    // File operations.

    method ReplaceFromStaging(name: string) returns (raised: bool)
      modifies this`files, this`staging, this`faults
      ensures !raised ==> name in old(staging) && faults == old(faults)
      ensures raised && name in old(staging) && !(name in old(files) && old(files)[name].Directory?) ==> faults == old(faults) + 1
      ensures old(faults) <= faults <= old(faults) + 1
      ensures (raised && files == old(files) && staging == old(staging))
           || (name in old(staging) && files == old(files)[name := old(staging)[name]] && staging == old(staging) - {name})
    {
      var effect;
      raised, effect := Strike(name in staging && !(name in files && files[name].Directory?));
      if effect {
        files, staging := files[name := staging[name]], staging - {name};
      }
    }

    method ReplaceFromBackup(name: string) returns (raised: bool)
      modifies this`files, this`backup, this`faults
      ensures !raised ==> name in old(backup) && faults == old(faults)
      ensures raised && name in old(backup) && !(name in old(files) && old(files)[name].Directory?) ==> faults == old(faults) + 1
      ensures old(faults) <= faults <= old(faults) + 1
      ensures (files == old(files) && backup == old(backup) && raised)
           || (name in old(backup) && files == old(files)[name := old(backup)[name]] && backup == old(backup) - {name})
    {
      var effect;
      raised, effect := Strike(name in backup && !(name in files && files[name].Directory?));
      if effect {
        files, backup := files[name := backup[name]], backup - {name};
      }
    }

    method Unlink(name: string) returns (raised: bool)
      modifies this`files, this`faults
      ensures !raised ==> faults == old(faults)
      ensures raised && !(name in old(files) && old(files)[name].Directory?) ==> faults == old(faults) + 1
      ensures old(faults) <= faults <= old(faults) + 1
      ensures (raised && files == old(files)) || files == old(files) - {name}
      ensures name in old(files) && old(files)[name].Directory? ==> files == old(files)
    {
      var effect;
      raised, effect := Strike(!(name in files && files[name].Directory?));
      if effect {
        files := files - {name};
      }
    }

    // Publication: what happens before and after the caller's block.

    method Open(filenames: seq<string>, remove: seq<string>) returns (o: Outcome)
      modifies this`staging, this`backup, this`faults
      ensures faults >= old(faults) && (o == Raised(Opening) <==> faults > old(faults))
      ensures o == Returned ==>
                && Elements(filenames) * Elements(remove) == {} && staging == map[] && backup == map[]
                && forall n | n in filenames + remove && n in files :: !files[n].IsDir()
      ensures o == Raised(Conflict) <==> Elements(filenames) * Elements(remove) != {}
      ensures o == Raised(OverDirectory) ==> exists n | n in filenames + remove :: n in files && files[n].IsDir()
      ensures o.Raised? ==> o.cause in {Conflict, OverDirectory, Opening}
    {
      if Elements(filenames) * Elements(remove) != {} {
        return Raised(Conflict);
      }
      var affected := filenames + remove;
      for i := 0 to |affected|
        invariant forall n | n in affected[..i] && n in files :: !files[n].IsDir()
      {
        if affected[i] in files && files[affected[i]].IsDir() {
          return Raised(OverDirectory);
        }
      }
      assert affected[..|affected|] == affected;
      var raised, _ := Strike(true);
      if raised {
        return Raised(Opening);
      }
      staging, backup := map[], map[];
      return Returned;
    }

    // Copies what is there; a failed copy may leave anything behind in the backup.
    method TakeBackups(filenames: seq<string>, remove: seq<string>) returns (raised: bool, originals: set<string>)
      requires forall n | n in filenames + remove && n in files :: !files[n].IsDir()
      modifies this`backup, this`staging, this`faults
      ensures faults >= old(faults) && (raised ==> faults > old(faults) || !StagedAll(filenames, old(staging)))
      ensures !raised ==>
                && faults == old(faults) && StagedAll(filenames, old(staging))
                && originals == Elements(filenames + remove) * files.Keys
                && (forall n | n in originals :: n in backup && backup[n] == files[n])
                && (forall n | n in filenames :: IsFileIn(old(staging), n))
                && "backup" !in filenames && staging == old(staging)["backup" := Directory]
    {
      originals := {};
      var effect;
      raised, effect := Strike("backup" !in staging);
      if raised { return; }
      backup := map[];
      staging := staging["backup" := Directory];
      var affected := filenames + remove;
      for i := 0 to |affected|
        invariant !raised && faults == old(faults) && staging == old(staging)["backup" := Directory]
        invariant originals == Elements(affected[..i]) * files.Keys
        invariant forall n | n in originals :: n in backup && backup[n] == files[n]
        invariant forall n | n in filenames && n in affected[..i] :: n != "backup" && IsFileIn(old(staging), n)
      {
        var name := affected[i];
        assert affected[..i+1] == affected[..i] + [name];
        if name in filenames && !IsFileIn(staging, name) {
          return true, originals;
        }
        if name in files {
          raised, effect := Strike(true);
          var torn: Entry := *;
          backup := backup[name := if raised then torn else files[name]];
          if raised { return; }
          originals := originals + {name};
        }
      }
      assert affected[..|affected|] == affected;
      assert forall n | n in filenames :: n in affected;
    }

    method Rollback(affected: seq<string>, originals: set<string>, ghost before: Dir) returns (raised: bool)
      requires originals == Elements(affected) * before.Keys
      requires forall n | n in originals :: n in backup && backup[n] == before[n]
      requires SameOutside(Elements(affected), before, files)
      requires NoDirectory(affected, before) && NoDirectory(affected, files)
      modifies this`files, this`backup, this`faults
      // It fails only if an operation does, or a name is restored again.
      ensures faults >= old(faults)
      ensures raised ==> faults > old(faults) || !ExistingOnce(affected, before)
      ensures Kept(originals, before, files, backup) && SameOutside(Elements(affected), before, files)
      ensures !raised ==> files == before
      // The first restoration of a name uses up its backup, so a second one raises.
      ensures !raised ==> ExistingOnce(affected, before)
    {
      hide RolledBack, Restoring, UsedUp, ExistingOnce, Kept, SameOutside, NoDirectory;
      raised := false;
      ghost var done: set<string> := {};
      var i := |affected|;
      BeginRollback(affected, originals, before, files, backup);
      while i > 0
        invariant 0 <= i <= |affected|
        invariant RolledBack(affected, i, originals, before, done, files, backup)
        invariant SameOutside(Elements(affected), before, files)
        invariant Kept(originals, before, files, backup)
        invariant faults == old(faults) && NoDirectory(affected, files)
      {
        i := i - 1;
        var name := affected[i];
        ghost var f, b := files, backup;
        CanRestore(affected, i, originals, before, done, files, backup);
        if name in originals {
          raised := ReplaceFromBackup(name);
        } else {
          raised := Unlink(name);
        }
        if !raised || files != f || backup != b {
          RestoreOne(affected, i, originals, before, done, f, b, files, backup);
        }
        if raised { return; }
        done := done + {name};
      }
      EndRollback(affected, originals, before, done, files, backup);
    }

    method Publish(filenames: seq<string>, remove: seq<string>, ghost candidate: Dir) returns (raised: bool)
      requires Elements(filenames) * Elements(remove) == {} && "backup" !in filenames
      requires staging == candidate["backup" := Directory]
      requires StagedAll(filenames, candidate) && NoDirectory(filenames + remove, files)
      modifies this`files, this`staging, this`faults
      ensures NoDirectory(filenames + remove, files) && old(faults) <= faults <= old(faults) + 1
      ensures raised ==> faults > old(faults) || !NoRepeats(filenames)
      ensures !raised ==> faults == old(faults)
      ensures SameOutside(Elements(filenames + remove), old(files), files)
      ensures !raised ==> Published(filenames, remove, candidate, old(files), files) && NoRepeats(filenames)
    {
      hide SameOutside, NoRepeats, NoDirectory, StagedAll, StillStaged, Installed;
      raised := false;
      BeginPublication(filenames, remove, candidate, staging, files);
      for i := 0 to |filenames|
        invariant SameOutside(Elements(filenames + remove), old(files), files) && NoDirectory(filenames + remove, files)
        invariant StillStaged(filenames, i, candidate, staging) && Installed(filenames, i, candidate, files)
        invariant faults == old(faults)
      {
        ghost var f, g := files, staging;
        CanReplace(filenames, remove, i, candidate, staging, files);
        // A name given twice has already left the staging directory, so the second replacement raises.
        raised := ReplaceFromStaging(filenames[i]);
        if files != f || !raised {
          ReplaceOne(filenames, remove, i, candidate, old(files), g, f);
        }
        if raised { return; }
      }
      NothingLeft(filenames, candidate, staging, files);
      for i := 0 to |remove|
        invariant SameOutside(Elements(filenames + remove), old(files), files) && NoDirectory(filenames + remove, files)
        invariant Installed(filenames, |filenames|, candidate, files)
        invariant forall n | n in remove[..i] :: n !in files
        invariant faults == old(faults)
      {
        ghost var f := files;
        CanRemove(filenames, remove, i, candidate, old(files), files);
        raised := Unlink(remove[i]);
        assert files == f || files == f - {remove[i]};
        if raised { return; }
        assert remove[..i+1] == remove[..i] + [remove[i]];
      }
      assert remove[..|remove|] == remove;
      AllInstalled(filenames, remove, candidate, old(files), files);
    }

    /**
     * The end of the update.  A raise leaves the files as they were, except in two cases: the rollback
     * itself failed, and then every original is still somewhere; or only the staging directory could not
     * be removed after a complete publication.
     */
    method Close(filenames: seq<string>, remove: seq<string>, blockRaised: bool)
      returns (o: Outcome, ghost began: bool)
      requires Elements(filenames) * Elements(remove) == {}
      requires forall n | n in filenames + remove && n in files :: !files[n].IsDir()
      modifies this
      ensures o.Raised? ==> o.cause in {Preparing, Publishing, RollbackFailed, Discarding(true), Discarding(false)}
      ensures o == Returned || o == Raised(Discarding(true)) ==>
                Published(filenames, remove, old(staging), old(files), files) && NoRepeats(filenames) && !blockRaised
      ensures o.Raised? && o.cause !in {RollbackFailed, Discarding(true)} ==> files == old(files)
      ensures o == Raised(RollbackFailed) ==>
                Kept(Elements(filenames + remove) * old(files.Keys), old(files), files, backup)
                && SameOutside(Elements(filenames + remove), old(files), files)
      // Once publication begins, a file name given twice makes it fail, and if a file of that name exists,
      // so does any rollback.
      ensures !began ==> o == Raised(Preparing) || o == Raised(Discarding(false))
      ensures began && !NoRepeats(filenames) ==> o.Raised? && o != Raised(Discarding(true))
      ensures began && !ExistingOnce(filenames + remove, old(files)) ==>
                o in {Returned, Raised(Discarding(true)), Raised(RollbackFailed)}
      ensures began && !ExistingOnce(filenames, old(files)) ==> o == Raised(RollbackFailed)
      // It begins exactly if the block and the backups succeed.
      ensures began ==> !blockRaised && StagedAll(filenames, old(staging))
      ensures !began ==> blockRaised || faults > old(faults) || !StagedAll(filenames, old(staging))
      // A rollback fails only when an operation fails in it, after one that made it necessary, or names are repeated.
      ensures faults >= old(faults)
      ensures o == Raised(RollbackFailed) ==>
                || faults >= old(faults) + 2 || !ExistingOnce(filenames + remove, old(files))
                || (faults > old(faults) && !NoRepeats(filenames))
      ensures o.Raised? ==>
                faults > old(faults) || blockRaised || !StagedAll(filenames, old(staging)) || !NoRepeats(filenames)
      ensures o.Raised? && o.cause.Discarding? ==> faults > old(faults)
      ensures o == Returned || (o.Raised? && o.cause in {Preparing, Publishing}) ==> staging == map[] && backup == map[]
    {
      hide ExistingOnce, NoRepeats, Published, SameOutside, Kept;
      o, began := Raised(Preparing), false;
      RepeatedFilenames(filenames, remove, files);
      NotDirectories(filenames + remove, files);
      UnchangedSoFar(Elements(filenames + remove), files);
      if !blockRaised {
        ghost var candidate := staging;
        var raised, originals := TakeBackups(filenames, remove);
        if !raised {
          began := true;
          raised := Publish(filenames, remove, candidate);
          if !raised {
            o := Returned;
          } else {
            raised := Rollback(filenames + remove, originals, old(files));
            if raised {
              return Raised(RollbackFailed), began;
            }
            o := Raised(Publishing);
          }
        }
      }
      var raised, _ := Strike(true);
      if raised {
        o := Raised(Discarding(o == Returned));
      } else {
        staging, backup := map[], map[];
      }
    }
  }

  // Restoring a checkpoint.

  const REQUIRED := ["mdef", "means", "variances", "mixture_weights", "transition_matrices"]
  const PARAMETERS := ["means", "variances", "mixture_weights", "transition_matrices"]
  const COUNTS := "gauden_counts"

  function ModelFiles(): set<string> {
    Elements(REQUIRED) + {COUNTS}
  }

  function ContentsAt(d: Dir, name: string): Option<Data> {
    if IsFileIn(d, name) then Some(d[name].Contents()) else None
  }

  /** The contents of the model files and of the optional counts; absence is part of it. */
  function Snapshot(d: Dir): map<string, Option<Data>> {
    map n | n in ModelFiles() :: ContentsAt(d, n)
  }

  // The file names that `.mdef.*.complete` matches, and the two other records of a finished training.
  predicate Invalidated(name: string) {
    || name == "provenance.json" || name == "sendump"
    || (|name| >= 15 && name[..6] == ".mdef." && name[|name|-9..] == ".complete")
  }

  /** Invalidated are the two records, and whatever stands between ".mdef." and ".complete". */
  lemma InvalidatedMeans(name: string, middle: string)
    ensures Invalidated("provenance.json") && Invalidated("sendump") && Invalidated(".mdef." + middle + ".complete")
    ensures Invalidated(name) ==>
              name == "provenance.json" || name == "sendump" || exists m :: name == ".mdef." + m + ".complete"
  {
    var marker := ".mdef." + middle + ".complete";
    assert marker[..6] == ".mdef." && marker[|marker|-9..] == ".complete";
    if |name| >= 15 && name[..6] == ".mdef." && name[|name|-9..] == ".complete" {
      assert name == name[..6] + name[6..|name|-9] + name[|name|-9..];
      assert name == ".mdef." + name[6..|name|-9] + ".complete";
    }
  }

  // What is copied aside before anything is touched.
  predicate Archived(name: string) {
    name in REQUIRED || name == COUNTS || name == "feat.params" || name == "bw_telemetry.json" || Invalidated(name)
  }

  /** A checkpoint that may be restored over these model files; a dangling counts link counts as none. */
  predicate Restorable(checkpoint: Dir, files: Dir) {
    && (forall n | n in REQUIRED :: n in checkpoint && checkpoint[n].Regular?)
    && IsFileIn(files, "mdef") && files["mdef"].Contents() == checkpoint["mdef"].data
    && (COUNTS in checkpoint ==> checkpoint[COUNTS].Regular? || checkpoint[COUNTS] == Link(Dangling))
  }

  /** The archive has every file that a restore may touch. */
  ghost predicate Holds(archive: Dir, before: Dir) {
    forall n | n in before && Archived(n) && !before[n].Directory? :: n in archive && archive[n] == before[n]
  }

  // Some of the invalidated files, and nothing else, were deleted; a directory cannot be.
  ghost predicate Stripped(before: Dir, after: Dir) {
    && (forall n | !Invalidated(n) :: SameAt(n, before, after))
    && (forall n | n in after :: n in before && after[n] == before[n])
    && (forall n | n in before && n !in after :: !before[n].Directory?)
  }

  ghost predicate NoneInvalidated(files: Dir) {
    forall n | n in files :: !Invalidated(n)
  }

  /** Whatever differs from before was archived. */
  ghost predicate Covered(archive: Dir, before: Dir, files: Dir) {
    forall n | n in before && !SameAt(n, before, files) :: n in archive && archive[n] == before[n]
  }

  function Names(counts: bool): seq<string> {
    PARAMETERS + if counts then [COUNTS] else []
  }

  function Removals(counts: bool): seq<string> {
    if counts then [] else [COUNTS]
  }

  lemma NamesAreModelFiles(counts: bool)
    ensures Elements(Names(counts)) * Elements(Removals(counts)) == {}
    ensures forall n | n in Names(counts) + Removals(counts) :: n in ModelFiles() && n != "mdef" && Archived(n) && !Invalidated(n)
    ensures forall n :: n in ModelFiles() <==> n == "mdef" || n in Names(counts) + Removals(counts)
  {
  }

  /** The checkpoint is left alone, and no directory is where a file is to be replaced or removed. */
  ghost predicate Unhindered(seen: Dir, copied: Dir, rechecked: Dir, files: Dir) {
    && Snapshot(copied) == Snapshot(seen) == Snapshot(rechecked)
    && forall n | n in files :: (Invalidated(n) ==> !files[n].Directory?) && (n in ModelFiles() ==> !files[n].IsDir())
  }

  lemma StrippedIsCovered(archive: Dir, before: Dir, files: Dir)
    requires Holds(archive, before) && Stripped(before, files)
    ensures Covered(archive, before, files)
  {
  }

  lemma UpdatedIsCovered(archive: Dir, before: Dir, stripped: Dir, files: Dir, counts: bool)
    requires Holds(archive, before) && Stripped(before, stripped)
    requires SameOutside(Elements(Names(counts) + Removals(counts)), stripped, files)
    requires !HasDirectory(Names(counts) + Removals(counts), stripped)
    ensures Covered(archive, before, files)
  {
  }

  lemma UpdateKeepsInvalidation(stripped: Dir, files: Dir, counts: bool)
    requires NoneInvalidated(stripped)
    requires SameOutside(Elements(Names(counts) + Removals(counts)), stripped, files)
    ensures NoneInvalidated(files)
  {
  }

  /** What is staged has the selected contents. */
  ghost predicate StagedAs(names: seq<string>, selected: map<string, Option<Data>>, staged: Dir) {
    forall n | n in names :: n in staged && staged[n].Regular? && n in selected && selected[n] == Some(staged[n].data)
  }

  ghost predicate CopiesDiffer(names: seq<string>, selected: map<string, Option<Data>>, copied: Dir) {
    exists n | n in names :: ContentsAt(copied, n) == None || n !in selected || ContentsAt(copied, n) != selected[n]
  }

  ghost predicate HasDirectory(names: seq<string>, files: Dir) {
    exists n | n in names :: n in files && files[n].IsDir()
  }

  lemma CopiesAgree(seen: Dir, copied: Dir, before: Dir)
    requires Restorable(seen, before) && Snapshot(copied) == Snapshot(seen)
    ensures !CopiesDiffer(Names(IsFileIn(seen, COUNTS)), Snapshot(seen), copied)
  {
    hide ContentsAt;
    var counts := IsFileIn(seen, COUNTS);
    NamesAreModelFiles(counts);
    forall n | n in Names(counts) ensures ContentsAt(copied, n) == Snapshot(seen)[n] && ContentsAt(copied, n).Some? {
      SeenContents(seen, before, n);
      assert Snapshot(copied)[n] == Snapshot(seen)[n];
    }
  }

  lemma SeenContents(seen: Dir, before: Dir, n: string)
    requires Restorable(seen, before) && n in Names(IsFileIn(seen, COUNTS))
    ensures ContentsAt(seen, n).Some?
  {
    assert n != COUNTS ==> n in PARAMETERS && n in REQUIRED;
  }

  // With nothing in the way of the whole restoration, nothing is in the way of its steps.
  lemma NothingHinders(seen: Dir, copied: Dir, rechecked: Dir, before: Dir, stripped: Dir, counts: bool)
    requires Unhindered(seen, copied, rechecked, before) && Stripped(before, stripped)
    ensures !HasDirectory(Names(counts) + Removals(counts), stripped)
    ensures !exists n | n in before :: Invalidated(n) && before[n].Directory?
  {
    NamesAreModelFiles(counts);
  }

  // Kept by the rollback that failed, apart from what was invalidated.
  lemma KeptSomewhere(before: Dir, stripped: Dir, files: Dir, backup: Dir, counts: bool)
    requires Stripped(before, stripped) && SameOutside(Elements(Names(counts) + Removals(counts)), stripped, files)
    requires Kept(Elements(Names(counts) + Removals(counts)) * stripped.Keys, stripped, files, backup)
    ensures SomewhereStill(before, files, backup)
  {
    NamesAreModelFiles(counts);
    forall n | n in before && !Invalidated(n)
      ensures (n in files && files[n] == before[n]) || (n in backup && backup[n] == before[n])
    {
      assert SameAt(n, before, stripped);
      if n in Elements(Names(counts) + Removals(counts)) {
        assert n in Elements(Names(counts) + Removals(counts)) * stripped.Keys;
      }
    }
  }

  ghost predicate SomewhereStill(before: Dir, files: Dir, backup: Dir) {
    forall n | n in before && !Invalidated(n) ::
      (n in files && files[n] == before[n]) || (n in backup && backup[n] == before[n])
  }

  lemma SnapshotsAgree(seen: Dir, copied: Dir, rechecked: Dir, before: Dir)
    requires Unhindered(seen, copied, rechecked, before)
    ensures Snapshot(copied) == Snapshot(seen) == Snapshot(rechecked)
  {
  }

  lemma Untouched(archive: Dir, files: Dir)
    ensures Covered(archive, files, files)
  {
  }

  lemma SnapshotHas(seen: Dir, names: seq<string>)
    requires forall n | n in names :: n in ModelFiles()
    ensures forall n | n in names :: n in Snapshot(seen)
  {
  }

  lemma AllStaged(names: seq<string>, selected: map<string, Option<Data>>, staged: Dir)
    requires "backup" !in names && forall n | n in staged :: n in names
    ensures StagedAs(names, selected, staged) ==> StagedAll(names, staged)
  {
  }

  lemma PublishedOutside(names: seq<string>, remove: seq<string>, staged: Dir, before: Dir, files: Dir)
    ensures Published(names, remove, staged, before, files) ==> SameOutside(Elements(names + remove), before, files)
  {
  }

  lemma NamedOnce(counts: bool, files: Dir)
    ensures NoRepeats(Names(counts)) && ExistingOnce(Names(counts) + Removals(counts), files)
    ensures "backup" !in Names(counts)
  {
    var s := Names(counts) + Removals(counts);
    assert s == PARAMETERS + [COUNTS];
  }

  /** Publishing what was staged, over files whose mdef already agrees, makes the two snapshots equal. */
  lemma PublishedSnapshot(seen: Dir, before: Dir, stripped: Dir, staged: Dir, files: Dir)
    requires Restorable(seen, before) && Stripped(before, stripped)
    requires StagedAs(Names(IsFileIn(seen, COUNTS)), Snapshot(seen), staged)
    requires var counts := IsFileIn(seen, COUNTS);
             Published(Names(counts), Removals(counts), staged, stripped, files)
    ensures Snapshot(files) == Snapshot(seen)
  {
    hide ContentsAt, Invalidated, Elements, Archived;
    var counts := IsFileIn(seen, COUNTS);
    NamesAreModelFiles(counts);
    assert REQUIRED[0] == "mdef";
    MdefAgrees(seen, before, stripped, files, counts);
    forall n | n in ModelFiles() ensures ContentsAt(files, n) == ContentsAt(seen, n) {
      if n in Names(counts) {
        StagedAgrees(staged, files, n);
      } else if n != "mdef" {
        CountsAgree(seen, files);
      }
    }
  }

  lemma MdefAgrees(seen: Dir, before: Dir, stripped: Dir, files: Dir, counts: bool)
    requires Restorable(seen, before) && Stripped(before, stripped)
    requires SameOutside(Elements(Names(counts) + Removals(counts)), stripped, files)
    ensures ContentsAt(files, "mdef") == ContentsAt(seen, "mdef")
  {
    assert REQUIRED[0] == "mdef" && |"mdef"| == 4;
    assert SameAt("mdef", before, stripped);
    NamesAreModelFiles(counts);
  }

  lemma StagedAgrees(staged: Dir, files: Dir, n: string)
    requires n in staged && staged[n].Regular? && n in files && files[n] == staged[n]
    ensures ContentsAt(files, n) == Some(staged[n].data)
  {
  }

  lemma CountsAgree(seen: Dir, files: Dir)
    requires !IsFileIn(seen, COUNTS) && COUNTS !in files
    ensures ContentsAt(files, COUNTS) == ContentsAt(seen, COUNTS)
  {
  }

  datatype Restoration =
    | Restored
    | Planned                      // a dry run
    | Refused
    | NotStarted                   // the archive could not be completed
    | HalfInvalidated              // a record of the finished training could not be removed
    | NotPublished(cause: Cause)

  class Restore {
    const dir: ModelDir
    var archive: Dir

    constructor (dir: ModelDir)
      ensures this.dir == dir
    {
      this.dir := dir;
      archive := map[];
    }

    method TakeArchive() returns (raised: bool)
      modifies this, dir`faults
      ensures dir.faults >= old(dir.faults) && (raised <==> dir.faults > old(dir.faults))
      ensures !raised ==> Holds(archive, dir.files)
    {
      var effect;
      raised, effect := dir.Strike(true);
      if raised { return; }
      archive := map[];
      var rest := set n | n in dir.files && Archived(n) && !dir.files[n].Directory?;
      while rest != {}
        invariant !raised && dir.faults == old(dir.faults)
        invariant forall n | n in dir.files && Archived(n) && !dir.files[n].Directory? && n !in rest ::
                    n in archive && archive[n] == dir.files[n]
        invariant forall n | n in rest :: n in dir.files
        decreases rest
      {
        var n :| n in rest;
        raised, effect := dir.Strike(true);
        if raised { return; }
        archive := archive[n := dir.files[n]];
        rest := rest - {n};
      }
    }

    method Invalidate() returns (raised: bool)
      modifies dir`files, dir`faults
      ensures dir.faults >= old(dir.faults)
      ensures raised ==> dir.faults > old(dir.faults) || exists n | n in old(dir.files) :: Invalidated(n) && old(dir.files)[n].Directory?
      ensures Stripped(old(dir.files), dir.files)
      ensures !raised ==> NoneInvalidated(dir.files)
    {
      raised := false;
      var rest := set n | n in dir.files && Invalidated(n);
      while rest != {}
        invariant !raised && dir.faults == old(dir.faults)
        invariant forall n | n in rest :: Invalidated(n)
        invariant forall n | n in dir.files && Invalidated(n) :: n in rest
        invariant Stripped(old(dir.files), dir.files)
        decreases rest
      {
        var n :| n in rest;
        raised := dir.Unlink(n);
        if raised { return; }
        rest := rest - {n};
      }
    }

    /** The block of the update: copy, look at the checkpoint again, and check what was staged. */
    method Stage(names: seq<string>, selected: map<string, Option<Data>>, copied: Dir, rechecked: Dir) returns (raised: bool)
      requires forall n | n in names :: n in selected
      requires dir.staging == map[]
      modifies dir`staging, dir`faults
      ensures dir.faults >= old(dir.faults)
      ensures raised ==>
                dir.faults > old(dir.faults) || Snapshot(rechecked) != selected || CopiesDiffer(names, selected, copied)
      ensures !raised ==> StagedAs(names, selected, dir.staging) && Snapshot(rechecked) == selected
      ensures forall n | n in dir.staging :: n in names
    {
      hide Snapshot;
      var effect;
      raised := false;
      for i := 0 to |names|
        invariant !raised && dir.faults == old(dir.faults)
        invariant forall n | n in names[..i] ::
                    n in dir.staging && dir.staging[n].Regular? && ContentsAt(copied, n) == Some(dir.staging[n].data)
        invariant forall n | n in dir.staging :: n in names
      {
        raised, effect := dir.Strike(IsFileIn(copied, names[i]));
        if raised {
          assert !IsFileIn(copied, names[i]) ==> ContentsAt(copied, names[i]) == None;
          return;
        }
        dir.staging := dir.staging[names[i] := Regular(copied[names[i]].Contents())];
      }
      assert names[..|names|] == names;
      if Snapshot(rechecked) != selected {
        return true;
      }
      for i := 0 to |names|
        invariant forall n | n in names[..i] :: selected[n] == Some(dir.staging[n].data)
      {
        if selected[names[i]] != Some(dir.staging[names[i]].data) {
          assert ContentsAt(copied, names[i]) != selected[names[i]];
          return true;
        }
      }
    }

    // The update of the parameters and counts.
    method Update(seen: Dir, copied: Dir, rechecked: Dir) returns (o: Outcome, ghost staged: Dir)
      modifies dir
      ensures var counts := IsFileIn(seen, COUNTS);
              var names, remove := Names(counts), Removals(counts);
              && SameOutside(Elements(names + remove), old(dir.files), dir.files)
              && (HasDirectory(names + remove, old(dir.files)) ==> dir.files == old(dir.files))
              && (o == Returned || o == Raised(Discarding(true)) ==>
                    && Snapshot(rechecked) == Snapshot(seen) && StagedAs(names, Snapshot(seen), staged)
                    && Published(names, remove, staged, old(dir.files), dir.files))
              && (o.Raised? && o.cause !in {RollbackFailed, Discarding(true)} ==> dir.files == old(dir.files))
              && (o == Raised(RollbackFailed) ==>
                    && dir.faults >= old(dir.faults) + 2
                    && Kept(Elements(names + remove) * old(dir.files).Keys, old(dir.files), dir.files, dir.backup))
              && dir.faults >= old(dir.faults)
              && (o.Raised? ==>
                    || dir.faults > old(dir.faults) || Snapshot(rechecked) != Snapshot(seen)
                    || CopiesDiffer(names, Snapshot(seen), copied) || HasDirectory(names + remove, old(dir.files)))
    {
      hide Snapshot, Published, SameOutside, Kept, CopiesDiffer, NoRepeats, ExistingOnce, Names, Removals;
      var counts := IsFileIn(seen, COUNTS);
      var names, remove := Names(counts), Removals(counts);
      NamesAreModelFiles(counts);
      NamedOnce(counts, dir.files);
      staged := map[];
      UnchangedSoFar(Elements(names + remove), dir.files);
      o := dir.Open(names, remove);
      if o.Raised? {
        return;
      }
      SnapshotHas(seen, names);
      var raised := Stage(names, Snapshot(seen), copied, rechecked);
      staged := dir.staging;
      AllStaged(names, Snapshot(seen), staged);
      ghost var began;
      o, began := dir.Close(names, remove, raised);
      UnchangedSoFar(Elements(names + remove), dir.files);
      PublishedOutside(names, remove, staged, old(dir.files), dir.files);
    }

    /**
     * `seen` is the checkpoint as it was listed and validated, `copied` as the copies read it and
     * `rechecked` as the last look found it; they need not agree.
     */
    method RestoreCheckpoint(seen: Dir, copied: Dir, rechecked: Dir, dryRun: bool) returns (o: Restoration)
      modifies this, dir
      ensures o == Refused <==> !Restorable(seen, old(dir.files))
      ensures o in {Refused, Planned, NotStarted} ==> dir.files == old(dir.files)
      ensures o == Planned <==> dryRun && Restorable(seen, old(dir.files))
      ensures o == Restored ==> !dryRun && Snapshot(dir.files) == Snapshot(seen) == Snapshot(rechecked)
      // Whatever is changed or deleted was archived first.
      ensures Covered(archive, old(dir.files), dir.files)
      // Once invalidation is over, its files stay absent.
      ensures o == Restored || o.NotPublished? ==> NoneInvalidated(dir.files)
      // Parameters are wholly old or wholly selected unless the rollback failed, and then nothing is lost.
      ensures o == NotPublished(Discarding(true)) ==> Snapshot(dir.files) == Snapshot(seen)
      ensures o == HalfInvalidated || (o.NotPublished? && o.cause !in {RollbackFailed, Discarding(true)}) ==>
                Stripped(old(dir.files), dir.files)
      ensures o == NotPublished(RollbackFailed) ==> SomewhereStill(old(dir.files), dir.files, dir.backup)
      // Without a failed operation it restores what it can; one alone never makes a rollback fail.
      ensures !dryRun && Restorable(seen, old(dir.files)) && Unhindered(seen, copied, rechecked, old(dir.files)) ==>
                o == Restored || dir.faults > old(dir.faults)
      ensures o == NotPublished(RollbackFailed) ==> dir.faults >= old(dir.faults) + 2
      ensures o == NotStarted ==> dir.faults > old(dir.faults)
    {
      hide Snapshot, Published, SameOutside, Kept, CopiesDiffer, HasDirectory, Covered, Stripped, Holds, NoneInvalidated,
           Unhindered, SomewhereStill, Names, Removals, StagedAs, Elements, Restorable;
      Untouched(archive, dir.files);
      if !Restorable(seen, dir.files) {
        return Refused;
      }
      ghost var counts, before := IsFileIn(seen, COUNTS), dir.files;
      if dryRun {
        return Planned;
      }
      var raised := TakeArchive();
      Untouched(archive, dir.files);
      if raised {
        return NotStarted;
      }
      raised := Invalidate();
      ghost var stripped := dir.files;
      StrippedIsCovered(archive, before, stripped);
      if Unhindered(seen, copied, rechecked, before) {
        NothingHinders(seen, copied, rechecked, before, stripped, counts);
        SnapshotsAgree(seen, copied, rechecked, before);
        CopiesAgree(seen, copied, before);
      }
      if raised {
        return HalfInvalidated;
      }
      var ended;
      ghost var staged;
      ended, staged := Update(seen, copied, rechecked);
      if !HasDirectory(Names(counts) + Removals(counts), stripped) {
        UpdatedIsCovered(archive, before, stripped, dir.files, counts);
      }
      UpdateKeepsInvalidation(stripped, dir.files, counts);
      if ended == Returned || ended == Raised(Discarding(true)) {
        PublishedSnapshot(seen, before, stripped, staged, dir.files);
      }
      if ended == Raised(RollbackFailed) {
        KeptSomewhere(before, stripped, dir.files, dir.backup, counts);
      }
      o := if ended.Raised? then NotPublished(ended.cause) else Restored;
    }
  }
}
