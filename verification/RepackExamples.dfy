/**
 Databases that are ready for a repack of the tape "A" to the tape "B", and what
 the repack leaves of them.
 */
module RepackExamples {
  import opened Basics
  import opened RepackDb
  import opened Repack

  /** No call fails, except switches. */
  function Answers(migrateRc: nat -> int): World {
    World(0, 0, 0, 0, 0, 0, "B", k => k + 2, k => 0, k => "", k => 0, 0, migrateRc, 0, false, 0, 0)
  }

  /** One object with two extents on "A". */
  function TwoExtents(size: nat, state: State): Db {
    Db({}, map[(0, 0) := 0, (0, 1) := 1],
       map[0 := Row("A", "a", size, "h", Sync), 1 := Row("A", "b", size, "h", state)],
       map[("A", "a") := seq(size, _ => 'x'), ("A", "b") := seq(size, _ => 'y')])
  }

  lemma {:induction false} IsReady(size: nat, state: State, migrateRc: nat -> int)
    ensures Ready(TwoExtents(size, state), "A", Answers(migrateRc))
  {
    var db := TwoExtents(size, state);
    assert forall slot: Slot :: slot in db.layout ==> slot == (0, 0) || slot == (0, 1);
  }

  /** Garbage collection changes nothing here. */
  lemma {:induction false} NoGarbage(size: nat, state: State)
    ensures Collected(TwoExtents(size, state), "A") == TwoExtents(size, state)
  {
    var db := TwoExtents(size, state);
    assert Garbage(db, "A") == {};
    assert Forget(db, "A") == db;
    assert db.layout[(0, 0)] == 0 && db.layout[(0, 1)] == 1;
    assert 0 in db.layout.Values && 1 in db.layout.Values;
    assert MarkOrphans(db, "A").rows == db.rows;
  }

  lemma {:induction false} DataIff(size: nat, state: State)
    ensures HasData(TwoExtents(size, state), "A") <==> size > 0
    ensures state == Sync ==> |LiveSet(TwoExtents(size, state), "A")| == 2
  {
    var db := TwoExtents(size, state);
    if size > 0 {
      assert IsLive(db, 0, "A") && db.rows[0].size > 0;
    }
    if state == Sync {
      assert LiveSet(db, "A") == {0, 1};
    }
  }

  lemma {:induction false} AllSucceeds(migrateRc: nat -> int, n: nat)
    ensures CopiesSucceed(Answers(migrateRc), n)
    ensures MoveSucceeds(Answers(migrateRc), n) <==> forall k: nat :: k < n ==> migrateRc(k) == 0
  {
  }

  /** A layout refers to an orphan extent: it is not copied, and the format loses it. */
  method OrphanReference() returns (admin: Admin, rc: int)
    ensures rc == 0 && !AllReadable(admin.db)
  {
    hide Ready, Collected, HasData, AllReadable, LiveSet, Moved, CopiesSucceed, MoveSucceeds;
    var db, w := TwoExtents(1, Orphan), Answers(k => 0);
    IsReady(1, Orphan, w.migrateRc);
    NoGarbage(1, Orphan);
    DataIff(1, Orphan);
    AllSucceeds(w.migrateRc, |LiveSet(db, "A")|);
    assert !NoOrphan(db, "A") by {
      assert (0, 1) in db.layout && OnMedium(db, db.layout[(0, 1)], "A");
    }
    admin := new Admin(db);
    ghost var erased;
    rc, erased := admin.Repack(true, "A", w);
  }

  /** The live extents have no byte in all: none is copied, and the format loses them. */
  method NoBytes() returns (admin: Admin, rc: int)
    ensures rc == 0 && !AllReadable(admin.db)
  {
    hide Ready, Collected, HasData, AllReadable, LiveSet, Moved, CopiesSucceed, MoveSucceeds;
    var db, w := TwoExtents(0, Sync), Answers(k => 0);
    IsReady(0, Sync, w.migrateRc);
    NoGarbage(0, Sync);
    DataIff(0, Sync);
    assert !NoReference(db, "A") by {
      assert (0, 0) in db.layout && OnMedium(db, db.layout[(0, 0)], "A");
    }
    admin := new Admin(db);
    ghost var erased;
    rc, erased := admin.Repack(true, "A", w);
  }

  /** The second switch fails: the repack reports a success, and a layout refers to an orphan copy on the target. */
  method SecondSwitchFails() returns (admin: Admin, rc: int)
    ensures rc == 0 && !NoOrphan(admin.db, "B") && !AllCopied(Collected(admin.db, "B"), "B")
  {
    hide Ready, Collected, HasData, AllReadable, LiveSet, Moved, CopiesSucceed, MoveSucceeds, NoOrphan, AllCopied;
    var db, w := TwoExtents(1, Sync), Answers(k => if k == 0 then 0 else -EIO);
    IsReady(1, Sync, w.migrateRc);
    NoGarbage(1, Sync);
    DataIff(1, Sync);
    AllSucceeds(w.migrateRc, 2);
    AllSucceeds(w.migrateRc, 1);
    assert w.migrateRc(1) == -EIO;
    admin := new Admin(db);
    ghost var erased;
    rc, erased := admin.Repack(true, "A", w);
  }
}
