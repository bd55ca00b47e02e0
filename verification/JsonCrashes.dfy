/** What survives a crash of the JSON store, over every run of saves and at every step of each. */
module JsonCrashes {
  import opened Prelude
  import opened JsonStore

  /** The state files of a name, where they are there, can be read. */
  predicate Good<P>(disk: Disk<P>, name: string) {
    && (Primary(name) in disk ==> Read(disk, Primary(name)).Some?)
    && (Previous(name) in disk ==> Read(disk, Previous(name)).Some?)
  }

  /** One save that ran for some steps; fewer than all of them is a crash or a failed write. */
  datatype Attempt<P> = Attempt(payload: P, revision: nat, temp: Path, steps: nat, unlinked: bool)

  function AfterAttempt<P>(disk: Disk<P>, name: string, a: Attempt<P>): Disk<P> {
    Stopped(disk, name, a.temp, Envelope(a.payload, a.revision), a.steps, a.unlinked)
  }

  ghost predicate Fits<P>(disk: Disk<P>, a: Attempt<P>) { IsTemporary(a.temp) && a.temp !in disk }

  /** Every attempt is atomic: before its last rename the state is what it was, after it the new payload. */
  lemma AttemptIsAtomic<P>(disk: Disk<P>, name: string, a: Attempt<P>)
    requires ValidName(name) && Good(disk, name) && Fits(disk, a)
    ensures var disk' := AfterAttempt(disk, name, a);
      && Good(disk', name)
      && Restored(disk', name) == if a.steps >= PLACED then Ok(Some((a.payload, a.revision))) else Restored(disk, name)
  {
    FileNames(name, a.temp);
  }

  ghost predicate AllFit<P>(disk: Disk<P>, name: string, attempts: seq<Attempt<P>>)
    decreases |attempts|
  {
    attempts != [] ==> Fits(disk, attempts[0]) && AllFit(AfterAttempt(disk, name, attempts[0]), name, attempts[1..])
  }

  ghost function AfterAll<P>(disk: Disk<P>, name: string, attempts: seq<Attempt<P>>): Disk<P>
    decreases |attempts|
  {
    if attempts == [] then disk else AfterAll(AfterAttempt(disk, name, attempts[0]), name, attempts[1..])
  }

  /** The last attempt that got to its last rename. */
  function LastCompleted<P>(attempts: seq<Attempt<P>>): Option<Attempt<P>> {
    if attempts == [] then None
    else
      var a := attempts[|attempts| - 1];
      if a.steps >= PLACED then Some(a) else LastCompleted(attempts[..|attempts| - 1])
  }

  lemma LastCompletedCons<P>(a: Attempt<P>, rest: seq<Attempt<P>>)
    ensures LastCompleted([a] + rest)
         == if LastCompleted(rest).Some? then LastCompleted(rest) else if a.steps >= PLACED then Some(a) else None
    decreases |rest|
  {
    if rest != [] {
      var all := [a] + rest;
      assert all[..|all| - 1] == [a] + rest[..|rest| - 1];
      LastCompletedCons(a, rest[..|rest| - 1]);
    } else {
      assert [a] + rest == [a] && [a][..0] == [];
    }
  }

  /** Over every run of saves, each possibly cut off at any write or rename, restoring gives the payload of the
      last save that got to its last rename, whole, or what was there before the run; never an error or a mixture. */
  lemma {:induction false} RestoreAfterCrashes<P>(disk: Disk<P>, name: string, attempts: seq<Attempt<P>>)
    requires ValidName(name) && Good(disk, name) && AllFit(disk, name, attempts)
    ensures Good(AfterAll(disk, name, attempts), name)
    ensures Restored(AfterAll(disk, name, attempts), name) ==
      match LastCompleted(attempts) case Some(a) => Ok(Some((a.payload, a.revision))) case None => Restored(disk, name)
    decreases |attempts|
  {
    hide Good, Restored, AfterAttempt, Fits;
    if attempts != [] {
      var a, rest := attempts[0], attempts[1..];
      assert attempts == [a] + rest;
      AttemptIsAtomic(disk, name, a);
      RestoreAfterCrashes(AfterAttempt(disk, name, a), name, rest);
      LastCompletedCons(a, rest);
    }
  }

  /** After a completed save over an existing generation, losing the primary alone gives that generation back. */
  lemma PreviousGeneration<P>(disk: Disk<P>, name: string, a: Attempt<P>)
    requires ValidName(name) && Good(disk, name) && Fits(disk, a) && a.steps >= PLACED
    requires Restored(disk, name) != Ok(None)
    ensures Restored(AfterAttempt(disk, name, a)[Primary(name) := Corrupt], name) == Restored(disk, name)
  {
    FileNames(name, a.temp);
  }

  // ----- where the promise ends

  /** On any directory, a crash between the two renames loses the state exactly when the primary could not be
      read and the previous file could: the good file is overwritten by the bad one. */
  lemma CrashBetweenRenames<P>(disk: Disk<P>, name: string, a: Attempt<P>)
    requires ValidName(name) && Fits(disk, a) && a.steps == 3
    ensures Restored(AfterAttempt(disk, name, a), name) != Restored(disk, name) <==>
      Primary(name) in disk && Read(disk, Primary(name)).None? && Read(disk, Previous(name)).Some?
    ensures Restored(AfterAttempt(disk, name, a), name) != Restored(disk, name) ==>
      Restored(AfterAttempt(disk, name, a), name) == Err(Unreadable)
  {
    FileNames(name, a.temp);
  }

  /** A delete cut off after its first unlink brings back the generation before exactly when there is one. */
  lemma DeleteIsNotAtomic<P>(disk: Disk<P>, name: string)
    requires ValidName(name)
    ensures Restored(Deleted(disk, name, 2), name) == Ok(None)
    ensures Restored(Deleted(disk, name, 1), name) != Ok(None) <==> Previous(name) in disk
    ensures Read(disk, Previous(name)).Some? ==>
      Restored(Deleted(disk, name, 1), name) == Ok(Read(disk, Previous(name)))
  {
    assert |Primary(name)| != |Previous(name)|;
  }

  function Files(name: string): set<Path> { {Primary(name), Previous(name)} }

  /** Two different names share a file exactly when one is the other with ".previous" behind it. */
  lemma SharedFiles(n: string, m: string)
    requires n != m
    ensures Files(n) !! Files(m) <==> n != m + ".previous" && m != n + ".previous"
  {
    Endings(n, m, ".json");
    Endings(n, m, ".previous.json");
    Endings(n, m + ".previous", ".json");
    Endings(m, n + ".previous", ".json");
    assert Previous(m) == (m + ".previous") + ".json" && Previous(n) == (n + ".previous") + ".json";
    assert Primary(n) != Primary(m) && Previous(n) != Previous(m);
    assert Primary(n) in Files(n) && Primary(m) in Files(m) && Previous(n) in Files(n) && Previous(m) in Files(m);
  }

  lemma Endings(a: string, b: string, end: string)
    ensures a + end == b + end <==> a == b
  {
    if a + end == b + end {
      assert |a| == |b|;
      assert a == (a + end)[..|a|] == (b + end)[..|b|] == b;
    }
  }

  /** Saving one name leaves the state of every name that shares no file with it alone. */
  lemma SaveLeavesOthers<P>(disk: Disk<P>, n: string, m: string, a: Attempt<P>)
    requires ValidName(n) && ValidName(m) && n != m && n != m + ".previous" && m != n + ".previous" && Fits(disk, a)
    ensures Restored(AfterAttempt(disk, n, a), m) == Restored(disk, m)
  {
    SharedFiles(n, m);
    FileNames(n, a.temp);
    FileNames(m, a.temp);
    assert Primary(n) in Files(n) && Previous(n) in Files(n) && Primary(m) in Files(m) && Previous(m) in Files(m);
  }

  // ----- revisions

  function RevisionOf<P>(disk: Disk<P>, path: Path): nat {
    if Read(disk, path).Some? then Read(disk, path).value.1 else 0
  }

  /** The previous file is older than the primary. */
  predicate Ordered<P>(disk: Disk<P>, name: string) {
    Good(disk, name) && (Primary(name) in disk && Previous(name) in disk ==>
      RevisionOf(disk, Previous(name)) < RevisionOf(disk, Primary(name)))
  }

  predicate Newest<P>(disk: Disk<P>, name: string, revision: nat) {
    RevisionOf(disk, Primary(name)) < revision && RevisionOf(disk, Previous(name)) < revision
  }

  /** A save with a revision above every revision on disk leaves the two files in order wherever it is cut off. */
  lemma NewestKeepsOrder<P>(disk: Disk<P>, name: string, a: Attempt<P>)
    requires ValidName(name) && Ordered(disk, name) && Fits(disk, a) && Newest(disk, name, a.revision)
    ensures Ordered(AfterAttempt(disk, name, a), name)
    ensures match Restored(AfterAttempt(disk, name, a), name) case Ok(Some((_, r))) => a.revision >= r case _ => true
  {
    FileNames(name, a.temp);
  }

  /** A process that saves without restoring after a crash between the renames starts again at one. */
  lemma RevisionsRestart<P>(disk: Disk<P>, name: string, a: Attempt<P>)
    requires ValidName(name) && Good(disk, name) && Fits(disk, a) && a.steps == 3 && Primary(name) in disk
    ensures var crashed := AfterAttempt(disk, name, a);
      Read(crashed, Primary(name)).None? && RevisionOf(crashed, Previous(name)) == RevisionOf(disk, Primary(name))
    ensures RevisionOf(disk, Primary(name)) >= 1 ==> !Newest(AfterAttempt(disk, name, a), name, 1)
  {
    FileNames(name, a.temp);
  }
}
