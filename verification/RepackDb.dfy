/**
 The database and the media as a tape repack sees them: layouts refer to extents,
 extents are stored at an address of a medium. Each change of a repack is a function
 here, with what it keeps of the data that layouts give access to.
 */
module RepackDb {
  import opened Basics

  type Uuid = nat
  type Address = string

  datatype State = Pending | Sync | Orphan

  datatype Row = Row(medium: Medium, address: Address, size: nat, hash: string, state: State)

  /** An extent of an object, by position. */
  type Slot = (nat, nat)

  /** `media` is what the media hold. */
  datatype Db = Db(deprecated: set<nat>, layout: map<Slot, Uuid>, rows: map<Uuid, Row>,
                   media: map<(Medium, Address), string>)

  /** What the media give for an extent. */
  function Fetch(db: Db, u: Uuid): Option<string> {
    if u in db.rows && (db.rows[u].medium, db.rows[u].address) in db.media
    then Some(db.media[(db.rows[u].medium, db.rows[u].address)]) else None
  }

  /** What is read for a slot of a layout. */
  function Read(db: Db, slot: Slot): Option<string> {
    if slot in db.layout then Fetch(db, db.layout[slot]) else None
  }

  ghost predicate AllReadable(db: Db) {
    forall slot: Slot :: slot in db.layout ==> Read(db, slot).Some?
  }

  /** The same slots with the same data. */
  ghost predicate SameReads(a: Db, b: Db) {
    && a.layout.Keys == b.layout.Keys && a.deprecated == b.deprecated
    && forall slot: Slot :: slot in a.layout ==> Read(b, slot) == Read(a, slot)
  }

  /** What remains of the layouts gives the same data, and only deprecated objects are gone. */
  ghost predicate Kept(a: Db, b: Db) {
    && b.layout.Keys <= a.layout.Keys
    && (forall slot: Slot :: slot in b.layout ==> Read(b, slot) == Read(a, slot))
    && (forall slot: Slot :: slot in a.layout && slot.0 !in a.deprecated ==> slot in b.layout)
  }

  lemma {:induction false} KeptThen(a: Db, b: Db, c: Db)
    requires Kept(a, b) && SameReads(b, c)
    ensures Kept(a, c)
  {
    hide Read;
  }

  lemma {:induction false} SameReadsThen(a: Db, b: Db, c: Db)
    requires SameReads(a, b) && SameReads(b, c)
    ensures SameReads(a, c)
  {
    hide Read;
  }

  lemma {:induction false} KeptItself(a: Db)
    ensures Kept(a, a) && SameReads(a, a)
  {
  }

  // ---------------------------------------------------------------- garbage collection

  predicate OnMedium(db: Db, u: Uuid, m: Medium) {
    u in db.rows && db.rows[u].medium == m
  }

  /** The deprecated objects that have an extent on this medium. */
  function Garbage(db: Db, m: Medium): set<nat> {
    set slot | slot in db.layout && slot.0 in db.deprecated && OnMedium(db, db.layout[slot], m) :: slot.0
  }

  /** Forgets these objects. */
  function Forget(db: Db, m: Medium): Db {
    var gone := Garbage(db, m);
    db.(deprecated := db.deprecated - gone,
        layout := map slot | slot in db.layout && slot.0 !in gone :: db.layout[slot])
  }

  /** Marks as orphan the extents of the medium that no layout refers to. */
  function MarkOrphans(db: Db, m: Medium): Db {
    var used := db.layout.Values;
    db.(rows := map u | u in db.rows ::
          if db.rows[u].medium == m && u !in used then db.rows[u].(state := Orphan) else db.rows[u])
  }

  /** Some extent of this object is on the medium. */
  ghost predicate HasExtentOn(db: Db, object_: nat, m: Medium) {
    exists slot: Slot :: slot in db.layout && slot.0 == object_ && OnMedium(db, db.layout[slot], m)
  }

  /** An object is forgotten exactly if it is deprecated and has an extent on the medium; nothing else changes. */
  lemma {:induction false} ForgetExactly(db: Db, m: Medium)
    ensures var after := Forget(db, m);
      && after.rows == db.rows && after.media == db.media && after.layout.Keys <= db.layout.Keys
      && (forall slot: Slot :: slot in db.layout ==>
            (slot !in after.layout <==> slot.0 in db.deprecated && HasExtentOn(db, slot.0, m)))
      && (forall slot: Slot :: slot in after.layout ==> after.layout[slot] == db.layout[slot])
      && (forall o: nat :: o in after.deprecated <==> o in db.deprecated && !HasExtentOn(db, o, m))
  {
    forall o: nat
      ensures o in Garbage(db, m) <==> o in db.deprecated && HasExtentOn(db, o, m)
    {
    }
  }

  lemma {:induction false} ForgetOthers(db: Db, m: Medium)
    ensures OthersKept(db, db, m) && OthersKept(db, Forget(db, m), m)
    ensures OthersKept(db, MarkOrphans(Forget(db, m), m), m)
  {
    hide Forget, MarkOrphans;
    ForgetExactly(db, m);
    MarkOrphansExactly(Forget(db, m), m);
  }

  lemma {:induction false} OthersThenElsewhere(a: Db, b: Db, c: Db, m: Medium)
    requires OthersKept(a, b, m) && Elsewhere(b, c, m)
    ensures OthersKept(a, c, m)
  {
  }

  lemma {:induction false} ElsewhereThen(a: Db, b: Db, c: Db, m: Medium)
    requires Elsewhere(a, b, m) && Elsewhere(b, c, m)
    ensures Elsewhere(a, c, m)
  {
  }

  /** The extents of the medium that no layout refers to become orphan; nothing else changes. */
  lemma {:induction false} MarkOrphansExactly(db: Db, m: Medium)
    ensures var after := MarkOrphans(db, m);
      && after.layout == db.layout && after.deprecated == db.deprecated && after.media == db.media
      && after.rows.Keys == db.rows.Keys
      && forall u: Uuid :: u in db.rows ==>
           after.rows[u] ==
             if OnMedium(db, u, m) && (forall slot: Slot :: slot in db.layout ==> db.layout[slot] != u)
             then db.rows[u].(state := Orphan) else db.rows[u]
  {
    forall u: Uuid
      ensures u in db.layout.Values <==> exists slot: Slot :: slot in db.layout && db.layout[slot] == u
    {
    }
  }

  /** The other media are left alone: their extents do not change, and layouts refer to them as before. */
  ghost predicate Elsewhere(a: Db, b: Db, m: Medium) {
    && (forall u: Uuid :: u in a.rows && a.rows[u].medium != m ==> u in b.rows && b.rows[u] == a.rows[u])
    && a.layout.Keys == b.layout.Keys
    && forall slot: Slot :: slot in a.layout && a.layout[slot] in a.rows && !OnMedium(a, a.layout[slot], m) ==>
         b.layout[slot] == a.layout[slot]
  }

  /** The same, but for the deprecated objects with an extent on the medium, which may be forgotten. */
  ghost predicate OthersKept(a: Db, b: Db, m: Medium) {
    && (forall u: Uuid :: u in a.rows && a.rows[u].medium != m ==> u in b.rows && b.rows[u] == a.rows[u])
    && (forall slot: Slot :: slot in a.layout && slot !in b.layout ==>
         slot.0 in a.deprecated && HasExtentOn(a, slot.0, m))
    && forall slot: Slot | slot in a.layout && slot in b.layout && a.layout[slot] in a.rows ::
         !OnMedium(a, a.layout[slot], m) ==> b.layout[slot] == a.layout[slot]
  }

  lemma {:induction false} ForgetKeeps(db: Db, m: Medium)
    ensures Kept(db, Forget(db, m))
  {
  }

  lemma {:induction false} MarkOrphansKeeps(db: Db, m: Medium)
    ensures SameReads(db, MarkOrphans(db, m))
  {
    var after := MarkOrphans(db, m);
    forall slot: Slot | slot in db.layout
      ensures Read(after, slot) == Read(db, slot)
    {
      var u := db.layout[slot];
      assert u in after.rows <==> u in db.rows;
    }
  }

  // ---------------------------------------------------------------- changes

  /** No layout refers to an extent of this medium. */
  ghost predicate NoReference(db: Db, m: Medium) {
    forall slot: Slot :: slot in db.layout ==> !OnMedium(db, db.layout[slot], m)
  }

  function Write(db: Db, m: Medium, a: Address, content: string): Db {
    db.(media := db.media[(m, a) := content])
  }

  function Insert(db: Db, u: Uuid, row: Row): Db {
    db.(rows := db.rows[u := row])
  }

  function SetState(db: Db, us: seq<Uuid>, state: State): Db {
    db.(rows := map u | u in db.rows :: if u in us then db.rows[u].(state := state) else db.rows[u])
  }

  lemma {:induction false} SetStateKeeps(db: Db, us: seq<Uuid>, state: State)
    ensures SameReads(db, SetState(db, us, state))
  {
    var after := SetState(db, us, state);
    forall slot: Slot | slot in db.layout
      ensures Read(after, slot) == Read(db, slot)
    {
      var u := db.layout[slot];
      assert u in after.rows <==> u in db.rows;
    }
  }

  /** Replaces an extent by another in all layouts. */
  function Replace(db: Db, source: Uuid, copy: Uuid): Db {
    db.(layout := map slot | slot in db.layout :: if db.layout[slot] == source then copy else db.layout[slot])
  }

  /** The replacement, the old extent becoming orphan and the new one synchronised. */
  function Migrate(db: Db, source: Uuid, copy: Uuid): Db {
    SetState(SetState(Replace(db, source, copy), [source], Orphan), [copy], Sync)
  }

  /** All layouts that refer to the source refer to the copy, the source is orphan and the copy synchronised. */
  lemma {:induction false} MigrateExactly(db: Db, source: Uuid, copy: Uuid)
    requires source != copy
    ensures var after := Migrate(db, source, copy);
      && after.media == db.media && after.deprecated == db.deprecated
      && after.layout.Keys == db.layout.Keys && after.rows.Keys == db.rows.Keys
      && (forall slot: Slot :: slot in db.layout ==>
            after.layout[slot] == if db.layout[slot] == source then copy else db.layout[slot])
      && forall u: Uuid :: u in db.rows ==>
           after.rows[u] == if u == source then db.rows[u].(state := Orphan)
                            else if u == copy then db.rows[u].(state := Sync) else db.rows[u]
  {
  }

  lemma {:induction false} ReplaceKeeps(db: Db, source: Uuid, copy: Uuid)
    requires Fetch(db, copy) == Fetch(db, source)
    ensures SameReads(db, Replace(db, source, copy))
  {
    hide Fetch;
    var after := Replace(db, source, copy);
    assert after.layout.Keys == db.layout.Keys;
    forall slot: Slot | slot in db.layout
      ensures Read(after, slot) == Read(db, slot)
    {
      SameFetch(db, after, db.layout[slot]);
      SameFetch(db, after, after.layout[slot]);
    }
  }

  lemma {:induction false} SameFetch(a: Db, b: Db, u: Uuid)
    requires a.rows == b.rows && a.media == b.media
    ensures Fetch(a, u) == Fetch(b, u)
  {
  }

  lemma {:induction false} MigrateKeeps(db: Db, source: Uuid, copy: Uuid)
    requires Fetch(db, copy) == Fetch(db, source)
    ensures SameReads(db, Migrate(db, source, copy))
  {
    hide SameReads, Replace, SetState;
    var a := Replace(db, source, copy);
    var b := SetState(a, [source], Orphan);
    ReplaceKeeps(db, source, copy);
    SetStateKeeps(a, [source], Orphan);
    SetStateKeeps(b, [copy], Sync);
    SameReadsThen(db, a, b);
    SameReadsThen(db, b, Migrate(db, source, copy));
  }

  /** What formatting leaves of the media. */
  function Erase(db: Db, m: Medium): Db {
    db.(media := map x | x in db.media && x.0 != m :: db.media[x])
  }

  lemma {:induction false} EraseKeeps(db: Db, m: Medium)
    requires NoReference(db, m)
    ensures SameReads(db, Erase(db, m)) && NoReference(Erase(db, m), m)
  {
    var after := Erase(db, m);
    forall slot: Slot | slot in db.layout
      ensures Read(after, slot) == Read(db, slot)
    {
    }
  }

  function DeleteRows(db: Db, m: Medium): Db {
    db.(rows := map u | u in db.rows && db.rows[u].medium != m :: db.rows[u])
  }

  lemma {:induction false} DeleteRowsKeeps(db: Db, m: Medium)
    requires NoReference(db, m)
    ensures SameReads(db, DeleteRows(db, m)) && NoReference(DeleteRows(db, m), m)
  {
    var after := DeleteRows(db, m);
    forall slot: Slot | slot in db.layout
      ensures Read(after, slot) == Read(db, slot)
    {
      var u := db.layout[slot];
      assert u in after.rows <==> u in db.rows && db.rows[u].medium != m;
    }
  }

  /** Data that a layout refers to on an erased medium is lost. */
  lemma {:induction false} EraseLoses(db: Db, m: Medium, slot: Slot)
    requires slot in db.layout && OnMedium(db, db.layout[slot], m)
    ensures Read(Erase(db, m), slot) == None && Read(DeleteRows(Erase(db, m), m), slot) == None
  {
  }
}
