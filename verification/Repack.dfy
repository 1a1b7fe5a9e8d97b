/**
 Repack of a tape: its live extents are copied to an empty tape, the layouts are
 switched to the copies, and the tape is formatted. Any call may fail.
 */
module Repack {
  import opened Basics
  import opened RepackDb

  /** The answers of the database, of the daemon and of the tapes; 0 is a success. */
  datatype World = World(
    forgetRc: int, orphansRc: int, listRc: int, infoRc: int, readRc: int, writeRc: int, target: Medium,
    uuid: nat -> Uuid, copyRc: nat -> int, junk: nat -> string, insertRc: nat -> int, releaseRc: int,
    migrateRc: nat -> int, formatRc: int, formatErases: bool, cleanRc: int, stateRc: int)

  /** The live extents of a medium. */
  predicate IsLive(db: Db, u: Uuid, m: Medium) {
    OnMedium(db, u, m) && db.rows[u].state != Orphan
  }

  ghost predicate Lists(db: Db, m: Medium, live: seq<Uuid>) {
    && NoDup(live)
    && forall u: Uuid :: u in live <==> IsLive(db, u, m)
  }

  /** The database lists the live extents in any order. */
  method GetExtents(db: Db, m: Medium) returns (live: seq<Uuid>)
    ensures Lists(db, m, live)
  {
    live := [];
    var todo := db.rows.Keys;
    while todo != {}
      invariant todo <= db.rows.Keys
      invariant NoDup(live)
      invariant forall u: Uuid :: u in live <==> IsLive(db, u, m) && u !in todo
      decreases |todo|
    {
      var u :| u in todo;
      todo := todo - {u};
      if db.rows[u].medium == m && db.rows[u].state != Orphan {
        live := live + [u];
      }
    }
  }

  function TotalSize(db: Db, us: seq<Uuid>): nat
    requires forall u :: u in us ==> u in db.rows
  {
    if us == [] then 0 else db.rows[us[0]].size + TotalSize(db, us[1..])
  }

  lemma {:induction false} TotalIsZero(db: Db, us: seq<Uuid>)
    requires forall u :: u in us ==> u in db.rows
    ensures TotalSize(db, us) == 0 <==> forall u :: u in us ==> db.rows[u].size == 0
  {
    if us != [] {
      TotalIsZero(db, us[1..]);
      assert us == [us[0]] + us[1..];
    }
  }

  // ---------------------------------------------------------------- when a repack is safe

  /** After garbage collection. */
  function Collected(db: Db, m: Medium): Db {
    MarkOrphans(Forget(db, m), m)
  }

  /** Some live extent of the medium has data. */
  ghost predicate HasData(db: Db, m: Medium) {
    exists u: Uuid :: IsLive(db, u, m) && db.rows[u].size > 0
  }

  /** No layout refers to an orphan extent of the medium. */
  ghost predicate NoOrphan(db: Db, m: Medium) {
    forall slot: Slot :: slot in db.layout && OnMedium(db, db.layout[slot], m) ==>
      db.rows[db.layout[slot]].state != Orphan
  }

  /** Every extent of the medium that a layout refers to is live, and will be copied. */
  ghost predicate AllCopied(db: Db, m: Medium) {
    NoOrphan(db, m) && (HasData(db, m) || NoReference(db, m))
  }

  // ---------------------------------------------------------------- copies

  /** The copy of an extent on the target. */
  function CopyOf(row: Row, target: Medium): Row {
    Row(target, row.address, row.size, row.hash, Pending)
  }

  /** The addresses of a medium are distinct. */
  ghost predicate DistinctAddresses(db: Db, m: Medium) {
    forall u, v: Uuid :: OnMedium(db, u, m) && OnMedium(db, v, m) && u != v ==> db.rows[u].address != db.rows[v].address
  }

  /** From `from`, the first extents of `live` have been copied to the target under the identifiers `copies`. */
  ghost predicate Copied(from: Db, db: Db, live: seq<Uuid>, copies: seq<Uuid>, target: Medium) {
    && |copies| <= |live| && db.layout == from.layout && db.deprecated == from.deprecated
    && (forall u: Uuid :: u in from.rows ==> u in db.rows && db.rows[u] == from.rows[u])
    && (forall u: Uuid :: u in from.rows && from.rows[u].medium != target ==> Fetch(db, u) == Fetch(from, u))
    && (forall u: Uuid :: u in db.rows ==> u in from.rows || u in copies)
    && (forall i :: 0 <= i < |copies| ==> copies[i] !in from.rows && copies[i] in db.rows)
    && (forall i :: 0 <= i < |copies| ==>
         live[i] in from.rows && db.rows[copies[i]] == CopyOf(from.rows[live[i]], target))
    && (forall i :: 0 <= i < |copies| ==> Fetch(db, copies[i]) == Fetch(from, live[i]))
  }

  lemma {:induction false} CopiedNone(from: Db, live: seq<Uuid>, target: Medium)
    ensures Copied(from, from, live, [], target)
  {
  }

  lemma {:induction false} CopiedKeeps(from: Db, db: Db, live: seq<Uuid>, copies: seq<Uuid>, target: Medium)
    requires Copied(from, db, live, copies, target) && NoReference(from, target) && AllReadable(from)
    ensures SameReads(from, db) && NoReference(db, target)
  {
    forall slot: Slot | slot in from.layout
      ensures Read(db, slot) == Read(from, slot) && !OnMedium(db, db.layout[slot], target)
    {
      assert Read(from, slot).Some?;
    }
  }

  /** Writing at the address of the next extent, whatever is written, harms no copy made so far. */
  lemma {:induction false} WriteNext(from: Db, db: Db, live: seq<Uuid>, copies: seq<Uuid>, source: Medium,
                                     target: Medium, content: string)
    requires Copied(from, db, live, copies, target) && |copies| < |live| && source != target
    requires Lists(from, source, live) && DistinctAddresses(from, source)
    ensures live[|copies|] in from.rows && from.rows[live[|copies|]].medium == source
    ensures Copied(from, Write(db, target, from.rows[live[|copies|]].address, content), live, copies, target)
  {
    hide Fetch, Write;
    var k := |copies|;
    assert IsLive(from, live[k], source);
    WriteIs(db, target, from.rows[live[k]].address, content);
    var a := from.rows[live[k]].address;
    var after := Write(db, target, a, content);
    forall i | 0 <= i < k
      ensures Fetch(after, copies[i]) == Fetch(from, live[i])
    {
      assert IsLive(from, live[i], source) && OnMedium(from, live[i], source) && OnMedium(from, live[k], source);
      assert from.rows[live[i]].address != a;
      WriteElsewhere(db, target, a, content, copies[i]);
    }
    forall u: Uuid | u in from.rows && from.rows[u].medium != target
      ensures Fetch(after, u) == Fetch(from, u)
    {
      WriteElsewhere(db, target, a, content, u);
    }
  }

  lemma {:induction false} WriteIs(db: Db, m: Medium, a: Address, content: string)
    ensures var after := Write(db, m, a, content);
      after.layout == db.layout && after.rows == db.rows && after.deprecated == db.deprecated
  {
  }

  lemma {:induction false} WriteElsewhere(db: Db, m: Medium, a: Address, content: string, u: Uuid)
    requires u in db.rows && (db.rows[u].medium != m || db.rows[u].address != a)
    ensures Fetch(Write(db, m, a, content), u) == Fetch(db, u)
  {
  }

  lemma {:induction false} InsertNext(from: Db, db: Db, live: seq<Uuid>, copies: seq<Uuid>, source: Medium,
                                      target: Medium, u: Uuid)
    requires Copied(from, db, live, copies, target) && |copies| < |live| && source != target
    requires live[|copies|] in from.rows && from.rows[live[|copies|]].medium == source
    requires u !in db.rows && u !in from.rows
    requires (target, from.rows[live[|copies|]].address) in db.media
    requires Some(db.media[(target, from.rows[live[|copies|]].address)]) == Fetch(from, live[|copies|])
    ensures Copied(from, Insert(db, u, CopyOf(from.rows[live[|copies|]], target)), live, copies + [u], target)
  {
    var k := |copies|;
    var after := Insert(db, u, CopyOf(from.rows[live[k]], target));
    var more := copies + [u];
    forall v: Uuid | v in db.rows
      ensures Fetch(after, v) == Fetch(db, v)
    {
    }
    forall v: Uuid | v in after.rows
      ensures v in from.rows || v in more
    {
      assert v == u ==> more[k] == v;
      if v in copies {
        var i :| 0 <= i < k && copies[i] == v;
        assert more[i] == v;
      }
    }
    forall i | 0 <= i < |more|
      ensures more[i] !in from.rows && more[i] in after.rows && live[i] in from.rows
      ensures after.rows[more[i]] == CopyOf(from.rows[live[i]], target) && Fetch(after, more[i]) == Fetch(from, live[i])
    {
      assert i < k ==> more[i] == copies[i];
    }
  }

  // ---------------------------------------------------------------- switch

  /** Two rows that differ by their states only. */
  predicate SameExtent(a: Row, b: Row) {
    a.(state := Sync) == b.(state := Sync)
  }

  /** The first `k` extents are orphan and their copies synchronised; other extents are as they were. */
  ghost predicate SwitchedRows(mid: Db, db: Db, live: seq<Uuid>, copies: seq<Uuid>, k: nat)
    requires k <= |live| == |copies|
  {
    && db.rows.Keys == mid.rows.Keys
    && (forall u: Uuid :: u in mid.rows ==> SameExtent(db.rows[u], mid.rows[u]))
    && (forall i :: 0 <= i < k && copies[i] in db.rows ==> db.rows[copies[i]].state == Sync)
    && (forall u: Uuid :: u in mid.rows && u !in live && u !in copies ==> db.rows[u] == mid.rows[u])
  }

  /** The slots of the first `k` extents refer to their copies, the others are as they were. */
  ghost predicate SwitchedLayout(mid: Db, db: Db, live: seq<Uuid>, copies: seq<Uuid>, k: nat)
    requires k <= |live| == |copies|
  {
    && db.layout.Keys == mid.layout.Keys
    && (forall slot: Slot, i :: slot in mid.layout && 0 <= i < k && mid.layout[slot] == live[i] ==>
         db.layout[slot] == copies[i])
    && (forall slot: Slot :: slot in mid.layout && mid.layout[slot] !in live[..k] ==>
         db.layout[slot] == mid.layout[slot])
  }

  /** From `mid`, the layouts have been switched to the copies of the first `k` extents. */
  ghost predicate Switched(mid: Db, db: Db, live: seq<Uuid>, copies: seq<Uuid>, k: nat) {
    && k <= |live| == |copies| && db.media == mid.media && db.deprecated == mid.deprecated
    && SwitchedRows(mid, db, live, copies, k) && SwitchedLayout(mid, db, live, copies, k)
  }

  lemma {:induction false} SwitchedNone(mid: Db, live: seq<Uuid>, copies: seq<Uuid>)
    requires |live| == |copies|
    ensures Switched(mid, mid, live, copies, 0)
  {
  }

  lemma {:induction false} SwitchedFetch(mid: Db, db: Db, live: seq<Uuid>, copies: seq<Uuid>, k: nat, u: Uuid)
    requires Switched(mid, db, live, copies, k)
    ensures Fetch(db, u) == Fetch(mid, u)
  {
    assert u in db.rows <==> u in mid.rows;
  }

  lemma {:induction false} SwitchNext(from: Db, mid: Db, db: Db, live: seq<Uuid>, copies: seq<Uuid>, target: Medium,
                                      k: nat)
    requires Copied(from, mid, live, copies, target) && Switched(mid, db, live, copies, k) && k < |live|
    requires NoDup(live)
    ensures Switched(mid, Migrate(db, live[k], copies[k]), live, copies, k + 1)
  {
    hide Migrate, Copied, SwitchedRows, SwitchedLayout;
    NotItsCopy(from, mid, live, copies, target, k, k);
    MigrateExactly(db, live[k], copies[k]);
    SwitchRows(from, mid, db, live, copies, target, k);
    SwitchSlots(from, mid, db, live, copies, target, k);
  }

  /** No extent is its own copy. */
  lemma {:induction false} NotItsCopy(from: Db, mid: Db, live: seq<Uuid>, copies: seq<Uuid>, target: Medium, i: nat,
                                      k: nat)
    requires Copied(from, mid, live, copies, target) && i < |copies| && k < |copies|
    ensures copies[i] != live[k]
  {
    assert live[k] in from.rows && copies[i] !in from.rows;
  }

  lemma {:induction false} SwitchRows(from: Db, mid: Db, db: Db, live: seq<Uuid>, copies: seq<Uuid>, target: Medium,
                                      k: nat)
    requires Copied(from, mid, live, copies, target) && k < |live| == |copies| && SwitchedRows(mid, db, live, copies, k)
    ensures SwitchedRows(mid, Migrate(db, live[k], copies[k]), live, copies, k + 1)
  {
    hide Migrate, Copied, SameExtent;
    forall i | 0 <= i < |copies|
      ensures copies[i] != live[k]
    {
      NotItsCopy(from, mid, live, copies, target, i, k);
    }
    MigrateExactly(db, live[k], copies[k]);
    var after := Migrate(db, live[k], copies[k]);
    forall u: Uuid | u in mid.rows
      ensures SameExtent(after.rows[u], mid.rows[u])
    {
      SameButState(db.rows[u]);
      SameExtentThen(after.rows[u], db.rows[u], mid.rows[u]);
    }
  }

  lemma {:induction false} SwitchSlots(from: Db, mid: Db, db: Db, live: seq<Uuid>, copies: seq<Uuid>, target: Medium,
                                       k: nat)
    requires Copied(from, mid, live, copies, target) && k < |live| == |copies|
    requires SwitchedLayout(mid, db, live, copies, k)
    requires NoDup(live)
    ensures SwitchedLayout(mid, Migrate(db, live[k], copies[k]), live, copies, k + 1)
  {
    hide Migrate, Copied;
    NotItsCopy(from, mid, live, copies, target, k, k);
    MigrateExactly(db, live[k], copies[k]);
    var after := Migrate(db, live[k], copies[k]);
    forall slot: Slot | slot in mid.layout
      ensures mid.layout[slot] !in live[..k + 1] ==> after.layout[slot] == mid.layout[slot]
      ensures forall i :: 0 <= i < k + 1 && mid.layout[slot] == live[i] ==> after.layout[slot] == copies[i]
    {
      SwitchSlot(from, mid, db, live, copies, target, k, slot);
    }
  }

  lemma {:induction false} SameButState(a: Row)
    ensures SameExtent(a, a) && SameExtent(a.(state := Orphan), a) && SameExtent(a.(state := Sync), a)
  {
  }

  lemma {:induction false} SameExtentThen(a: Row, b: Row, c: Row)
    requires SameExtent(a, b) && SameExtent(b, c)
    ensures SameExtent(a, c)
  {
  }

  lemma {:induction false} SwitchSlot(from: Db, mid: Db, db: Db, live: seq<Uuid>, copies: seq<Uuid>, target: Medium,
                                      k: nat, slot: Slot)
    requires Copied(from, mid, live, copies, target) && k < |live| == |copies|
    requires SwitchedLayout(mid, db, live, copies, k)
    requires NoDup(live) && slot in mid.layout
    ensures var v := if db.layout[slot] == live[k] then copies[k] else db.layout[slot];
      && (mid.layout[slot] !in live[..k + 1] ==> v == mid.layout[slot])
      && forall i :: 0 <= i < k + 1 && mid.layout[slot] == live[i] ==> v == copies[i]
  {
    hide Copied;
    assert live[..k + 1] == live[..k] + [live[k]];
    if i :| 0 <= i < k && mid.layout[slot] == live[i] {
      NotItsCopy(from, mid, live, copies, target, i, k);
    } else {
      assert mid.layout[slot] !in live[..k];
    }
  }

  /** Each slot has its extent or, if that was on the source, a synchronised copy of it on the target. */
  ghost predicate Moved(from: Db, db: Db, source: Medium, target: Medium) {
    && db.layout.Keys == from.layout.Keys
    && forall slot: Slot :: slot in from.layout && from.layout[slot] in from.rows ==>
         db.layout[slot] in db.rows &&
         SlotMoved(from.rows[from.layout[slot]], db.rows[db.layout[slot]], source, target)
  }

  predicate SlotMoved(before: Row, after: Row, source: Medium, target: Medium) {
    if before.medium == source then after == before.(medium := target, state := Sync) else after == before
  }

  lemma {:induction false} SwitchedSlot(from: Db, mid: Db, db: Db, live: seq<Uuid>, copies: seq<Uuid>, source: Medium,
                                        target: Medium, slot: Slot)
    requires Copied(from, mid, live, copies, target) && Switched(mid, db, live, copies, |live|)
    requires Lists(from, source, live) && source != target
    requires slot in from.layout && from.layout[slot] in from.rows
    ensures slot in db.layout && db.layout[slot] in db.rows
    ensures IsLive(from, from.layout[slot], source) ==>
      SlotMoved(from.rows[from.layout[slot]], db.rows[db.layout[slot]], source, target)
    ensures !IsLive(from, from.layout[slot], source) ==>
      db.layout[slot] == from.layout[slot] && db.rows[db.layout[slot]].medium == from.rows[from.layout[slot]].medium
    ensures !OnMedium(from, from.layout[slot], source) ==>
      SlotMoved(from.rows[from.layout[slot]], db.rows[db.layout[slot]], source, target)
  {
    hide Copied, Switched, Fetch;
    var u := from.layout[slot];
    if IsLive(from, u, source) {
      var i :| 0 <= i < |live| && live[i] == u;
      LiveSlot(from, mid, db, live, copies, target, slot, i);
    } else {
      assert u !in live;
      OtherSlot(from, mid, db, live, copies, target, slot);
    }
  }

  lemma {:induction false} LiveSlot(from: Db, mid: Db, db: Db, live: seq<Uuid>, copies: seq<Uuid>, target: Medium,
                                    slot: Slot, i: nat)
    requires Copied(from, mid, live, copies, target) && Switched(mid, db, live, copies, |live|)
    requires slot in from.layout && i < |live| && from.layout[slot] == live[i]
    ensures slot in db.layout && live[i] in from.rows && db.layout[slot] in db.rows
    ensures db.rows[db.layout[slot]] == CopyOf(from.rows[live[i]], target).(state := Sync)
  {
    hide Fetch;
    assert db.layout[slot] == copies[i];
  }

  lemma {:induction false} OtherSlot(from: Db, mid: Db, db: Db, live: seq<Uuid>, copies: seq<Uuid>, target: Medium,
                                     slot: Slot)
    requires Copied(from, mid, live, copies, target) && Switched(mid, db, live, copies, |live|)
    requires slot in from.layout && from.layout[slot] in from.rows && from.layout[slot] !in live
    ensures slot in db.layout && db.layout[slot] == from.layout[slot] && db.layout[slot] in db.rows
    ensures db.rows[db.layout[slot]] == from.rows[from.layout[slot]]
  {
    hide Fetch;
    assert from.layout[slot] !in copies;
    assert live[..|live|] == live;
  }

  /** Once all is switched the source is not referred to, unless by an orphan extent. */
  lemma {:induction false} AfterSwitch(from: Db, mid: Db, db: Db, live: seq<Uuid>, copies: seq<Uuid>, source: Medium,
                                       target: Medium)
    requires Copied(from, mid, live, copies, target) && Switched(mid, db, live, copies, |live|)
    requires Lists(from, source, live) && source != target && AllReadable(from)
    ensures NoReference(db, source) <==> NoOrphan(from, source)
    ensures NoOrphan(from, source) ==> Moved(from, db, source, target)
  {
    hide Copied, Switched, Lists, SlotMoved;
    LayoutKeys(from, mid, db, live, copies, target);
    forall slot: Slot | slot in from.layout
      ensures from.layout[slot] in from.rows && db.layout[slot] in db.rows
      ensures OnMedium(db, db.layout[slot], source) <==>
        OnMedium(from, from.layout[slot], source) && from.rows[from.layout[slot]].state == Orphan
      ensures !OnMedium(db, db.layout[slot], source) ==>
        SlotMoved(from.rows[from.layout[slot]], db.rows[db.layout[slot]], source, target)
    {
      assert Read(from, slot).Some?;
      SwitchedSlot(from, mid, db, live, copies, source, target, slot);
      SlotMovedTo(from.rows[from.layout[slot]], db.rows[db.layout[slot]], source, target);
    }
  }

  lemma {:induction false} SlotMovedTo(before: Row, after: Row, source: Medium, target: Medium)
    requires source != target
    ensures SlotMoved(before, after, source, target) ==> after.medium != source
  {
  }

  lemma {:induction false} LayoutKeys(from: Db, mid: Db, db: Db, live: seq<Uuid>, copies: seq<Uuid>, target: Medium)
    requires Copied(from, mid, live, copies, target) && Switched(mid, db, live, copies, |live|)
    ensures db.layout.Keys == from.layout.Keys
  {
    hide Fetch;
  }

  lemma {:induction false} SwitchedElsewhere(from: Db, mid: Db, db: Db, live: seq<Uuid>, copies: seq<Uuid>,
                                             source: Medium, target: Medium, k: nat)
    requires Copied(from, mid, live, copies, target) && Switched(mid, db, live, copies, k) && Lists(from, source, live)
    ensures Elsewhere(from, db, source)
  {
    hide Fetch, SameExtent;
    forall u: Uuid | u in from.rows && from.rows[u].medium != source
      ensures u in db.rows && db.rows[u] == from.rows[u] && u !in live
    {
      assert u in live ==> IsLive(from, u, source);
      assert u !in copies;
    }
  }

  lemma {:induction false} CopiedElsewhere(from: Db, db: Db, live: seq<Uuid>, copies: seq<Uuid>, source: Medium,
                                           target: Medium)
    requires Copied(from, db, live, copies, target)
    ensures Elsewhere(from, db, source) && forall u: Uuid :: u in copies ==> u !in from.rows
  {
    hide Fetch;
  }

  lemma {:induction false} AbandonedElsewhere(from: Db, db: Db, copies: seq<Uuid>, source: Medium)
    requires Elsewhere(from, db, source) && forall u: Uuid :: u in copies ==> u !in from.rows
    ensures Elsewhere(from, SetState(db, copies, Orphan), source)
  {
  }

  // ---------------------------------------------------------------- interrupted

  /** A layout that is not deprecated refers to each of these extents. */
  ghost predicate Used(db: Db, live: seq<Uuid>) {
    forall u: Uuid :: u in live ==>
      exists slot: Slot :: slot in db.layout && slot.0 !in db.deprecated && db.layout[slot] == u
  }

  /**
   A repack has stopped before its end. The layouts refer to the target for `some` of their extents, which are then
   synchronised copies, and at least for the first copy.
   */
  ghost predicate Stopped(db: Db, copies: seq<Uuid>, target: Medium, some: bool) {
    && (forall slot: Slot :: slot in db.layout && OnMedium(db, db.layout[slot], target) ==>
          some && db.rows[db.layout[slot]].state == Sync)
    && (some ==> copies != [] && OnMedium(db, copies[0], target)
                 && exists slot: Slot :: slot in db.layout && slot.0 !in db.deprecated && db.layout[slot] == copies[0])
  }

  lemma {:induction false} CopiedStopped(from: Db, db: Db, live: seq<Uuid>, copies: seq<Uuid>, target: Medium)
    requires Copied(from, db, live, copies, target) && NoReference(from, target) && AllReadable(from)
    ensures Stopped(db, copies, target, false)
  {
    hide Copied;
    CopiedKeeps(from, db, live, copies, target);
  }

  lemma {:induction false} SwitchStopped(from: Db, mid: Db, db: Db, live: seq<Uuid>, copies: seq<Uuid>, target: Medium,
                                         k: nat)
    requires Copied(from, mid, live, copies, target) && Switched(mid, db, live, copies, k) && k < |live|
    requires NoReference(from, target) && AllReadable(from) && Used(from, live)
    ensures Stopped(db, copies, target, k > 0)
  {
    hide Copied, Switched, AllReadable, NoReference, Used;
    forall slot: Slot | slot in db.layout && OnMedium(db, db.layout[slot], target)
      ensures k > 0 && db.rows[db.layout[slot]].state == Sync
    {
      StoppedSlot(from, mid, db, live, copies, target, k, slot);
    }
    if k > 0 {
      var slot := FirstSwitched(from, mid, db, live, copies, target, k);
    }
  }

  lemma {:induction false} FirstSwitched(from: Db, mid: Db, db: Db, live: seq<Uuid>, copies: seq<Uuid>, target: Medium,
                                         k: nat)
    returns (slot: Slot)
    requires Copied(from, mid, live, copies, target) && Switched(mid, db, live, copies, k) && 0 < k && Used(from, live)
    ensures slot in db.layout && slot.0 !in db.deprecated && copies != [] && db.layout[slot] == copies[0]
    ensures OnMedium(db, copies[0], target)
  {
    hide Fetch;
    assert live[0] in live;
    slot :| slot in from.layout && slot.0 !in from.deprecated && from.layout[slot] == live[0];
    assert db.layout[slot] == copies[0] && SameExtent(db.rows[copies[0]], mid.rows[copies[0]]);
  }

  lemma {:induction false} StoppedSlot(from: Db, mid: Db, db: Db, live: seq<Uuid>, copies: seq<Uuid>, target: Medium,
                                       k: nat, slot: Slot)
    requires Copied(from, mid, live, copies, target) && Switched(mid, db, live, copies, k) && k < |live|
    requires NoReference(from, target) && AllReadable(from)
    requires slot in db.layout && OnMedium(db, db.layout[slot], target)
    ensures k > 0 && db.rows[db.layout[slot]].state == Sync
  {
    hide Fetch;
    if mid.layout[slot] in live[..k] {
      var i :| 0 <= i < k && live[i] == mid.layout[slot];
      assert db.layout[slot] == copies[i];
    } else {
      assert Read(from, slot).Some? && slot in from.layout;
      ReadIsRow(from, slot);
      assert false;
    }
  }

  lemma {:induction false} ReadIsRow(db: Db, slot: Slot)
    requires Read(db, slot).Some?
    ensures slot in db.layout && db.layout[slot] in db.rows
  {
  }

  /** When the recorded copies become orphan, a layout refers to an orphan exactly if it referred to a copy. */
  lemma {:induction false} AbandonedIff(db: Db, copies: seq<Uuid>, target: Medium, some: bool)
    requires Stopped(db, copies, target, some)
    ensures NoOrphan(db, target)
    ensures var after := SetState(db, copies, Orphan);
      && (!NoOrphan(after, target) <==> some)
      && (some ==> !AllCopied(Collected(after, target), target))
  {
    var after := SetState(db, copies, Orphan);
    if some {
      var slot: Slot :| slot in db.layout && slot.0 !in db.deprecated && db.layout[slot] == copies[0];
      assert copies[0] in copies;
      OrphanIsUnsafe(after, target, slot);
    }
  }

  lemma {:induction false} OrphanIsUnsafe(db: Db, m: Medium, slot: Slot)
    requires slot in db.layout && slot.0 !in db.deprecated
    requires OnMedium(db, db.layout[slot], m) && db.rows[db.layout[slot]].state == Orphan
    ensures !NoOrphan(db, m) && !AllCopied(Collected(db, m), m)
  {
    var after := Collected(db, m);
    assert slot in after.layout && after.rows[after.layout[slot]].state == Orphan;
  }

  // ---------------------------------------------------------------- the run

  class Admin {
    var db: Db
    /** The states that the database and the media went through. */
    ghost var history: seq<Db>

    constructor (db: Db)
      ensures this.db == db && history == [db]
    {
      this.db, history := db, [db];
    }

    /** The history ends with the current state. */
    ghost predicate Recorded()
      reads this
    {
      |history| > 0 && history[|history| - 1] == db
    }

    /** Every state so far keeps the data of `start`. */
    ghost predicate AllKept(start: Db)
      reads this
    {
      Recorded() && Kept(start, db) && forall i :: 0 <= i < |history| ==> Kept(start, history[i])
    }

    method Update(next: Db)
      modifies this
      ensures db == next && history == old(history) + [next] && Recorded()
    {
      db, history := next, history + [next];
    }

    /** Removes the deprecated objects of the medium, then marks its unused extents; each part may fail. */
    method CollectGarbage(source: Medium, w: World, ghost start: Db) returns (rc: int)
      requires db == start && AllKept(start)
      modifies this
      ensures AllKept(start)
      ensures rc == if w.forgetRc != 0 then w.forgetRc else w.orphansRc
      ensures rc == 0 ==> db == Collected(start, source)
      ensures OthersKept(start, db, source)
    {
      hide Kept, Forget, MarkOrphans, OthersKept;
      ForgetOthers(db, source);
      rc := w.forgetRc;
      if rc != 0 {
        return;
      }
      ForgetKeeps(db, source);
      Update(Forget(db, source));
      rc := w.orphansRc;
      if rc != 0 {
        return;
      }
      MarkOrphansKeeps(db, source);
      KeptThen(start, db, MarkOrphans(db, source));
      Update(MarkOrphans(db, source));
    }

    /** Copies one extent and records the copy; what a failed copy leaves on the target is arbitrary. */
    method CopyOne(source: Medium, live: seq<Uuid>, copies: seq<Uuid>, w: World, ghost start: Db, ghost from: Db)
      returns (rc: int)
      requires AllKept(start) && Kept(start, from) && Copied(from, db, live, copies, w.target) && |copies| < |live|
      requires source != w.target && NoReference(from, w.target) && AllReadable(from)
      requires Lists(from, source, live) && DistinctAddresses(from, source)
      requires w.uuid(|copies|) !in from.rows && w.uuid(|copies|) !in copies && Fetch(from, live[|copies|]).Some?
      modifies this
      ensures AllKept(start)
      ensures rc == if w.copyRc(|copies|) != 0 then w.copyRc(|copies|) else w.insertRc(|copies|)
      ensures rc == 0 ==> Copied(from, db, live, copies + [w.uuid(|copies|)], w.target)
      ensures rc != 0 ==> Copied(from, db, live, copies, w.target)
    {
      hide Kept, Copied, Lists, DistinctAddresses, AllReadable, NoReference, SameReads, Insert;
      var k := |copies|;
      NextRow(from, db, live, copies, source, w.target);
      var row := db.rows[live[k]];
      rc := if (row.medium, row.address) in db.media then w.copyRc(k) else -EIO;
      var content := if rc == 0 then db.media[(row.medium, row.address)] else w.junk(k);
      WriteNext(from, db, live, copies, source, w.target, content);
      ghost var written := Write(db, w.target, row.address, content);
      CopiedKept(start, from, written, live, copies, w.target);
      Update(Write(db, w.target, row.address, content));
      if rc != 0 {
        return;
      }
      rc := w.insertRc(k);
      if rc != 0 {
        return;
      }
      var u := w.uuid(k);
      StillFresh(from, db, live, copies, w.target, u);
      InsertNext(from, db, live, copies, source, w.target, u);
      ghost var inserted := Insert(db, u, CopyOf(row, w.target));
      CopiedKept(start, from, inserted, live, copies + [u], w.target);
      Update(Insert(db, u, CopyOf(row, w.target)));
    }

    /** Copies the live extents in turn, up to the first failure. */
    method CopyAll(source: Medium, live: seq<Uuid>, w: World, ghost start: Db, ghost from: Db)
      returns (rc: int, copies: seq<Uuid>)
      requires db == from && AllKept(start) && source != w.target && NoReference(from, w.target) && AllReadable(from)
      requires Lists(from, source, live) && DistinctAddresses(from, source) && FreshUuids(from, w)
      requires forall i :: 0 <= i < |live| ==> Fetch(from, live[i]).Some?
      modifies this
      ensures AllKept(start) && Copied(from, db, live, copies, w.target)
      ensures rc == 0 <==> CopiesSucceed(w, |live|)
      ensures rc == 0 ==> |copies| == |live|
      ensures copies == [] <==> |live| == 0 || !CopiesSucceed(w, 1)
    {
      hide Kept, Copied, Lists, DistinctAddresses, AllReadable, NoReference;
      rc, copies := 0, [];
      CopiedNone(from, live, w.target);
      while |copies| < |live|
        invariant AllKept(start) && Copied(from, db, live, copies, w.target) && |copies| <= |live| && rc == 0
        invariant forall i :: 0 <= i < |copies| ==> copies[i] == w.uuid(i)
        invariant CopiesSucceed(w, |copies|)
        decreases |live| - |copies|
      {
        rc := CopyOne(source, live, copies, w, start, from);
        if rc != 0 {
          return;
        }
        copies := copies + [w.uuid(|copies|)];
      }
    }

    /** Switches the layouts to the copies, up to the first failure. */
    method SwitchAll(source: Medium, live: seq<Uuid>, copies: seq<Uuid>, w: World, ghost start: Db, ghost from: Db)
      returns (rc: int)
      requires AllKept(start) && source != w.target && AllReadable(from) && Lists(from, source, live)
      requires Copied(from, db, live, copies, w.target) && |copies| == |live|
      requires NoReference(from, w.target) && Used(from, live)
      modifies this
      ensures AllKept(start)
      ensures rc != 0 ==> Stopped(db, copies, w.target, w.migrateRc(0) == 0)
      ensures Elsewhere(from, db, source)
      ensures rc == 0 <==> forall k: nat :: k < |live| ==> w.migrateRc(k) == 0
      ensures rc == 0 ==> (NoReference(db, source) <==> NoOrphan(from, source))
      ensures rc == 0 && NoOrphan(from, source) ==> Moved(from, db, source, w.target)
    {
      hide Kept, Copied, AllReadable, NoReference, NoOrphan, Moved, Switched, SameReads, Migrate, Used, Stopped,
        Elsewhere, Lists;
      rc := 0;
      ghost var mid := db;
      SwitchedNone(mid, live, copies);
      var i := 0;
      while i < |live|
        invariant 0 <= i <= |live| && rc == 0 && AllKept(start) && Switched(mid, db, live, copies, i)
        invariant forall k: nat :: k < i ==> w.migrateRc(k) == 0
      {
        rc := w.migrateRc(i);
        if rc != 0 {
          SwitchStopped(from, mid, db, live, copies, w.target, i);
          SwitchedElsewhere(from, mid, db, live, copies, source, w.target, i);
          return;
        }
        SwitchKept(start, from, mid, db, live, copies, source, w.target, i);
        Update(Migrate(db, live[i], copies[i]));
        i := i + 1;
      }
      AfterSwitch(from, mid, db, live, copies, source, w.target);
      SwitchedElsewhere(from, mid, db, live, copies, source, w.target, i);
    }

    /** Formats the source and forgets its extents; a failed format may have erased it. */
    method FormatAndClean(source: Medium, w: World, ghost start: Db) returns (rc: int, ghost erased: bool)
      requires AllKept(start)
      modifies this
      ensures erased <==> w.formatRc == 0 || w.formatErases
      ensures rc == if w.formatRc != 0 then w.formatRc else w.cleanRc
      ensures Recorded() && (AllKept(start) || (erased && !NoReference(old(db), source)))
      ensures erased && !NoReference(old(db), source) ==> !AllReadable(db)
      ensures db.layout == old(db).layout && Elsewhere(old(db), db, source)
      ensures rc == 0 ==> forall u: Uuid :: u in db.rows ==> db.rows[u].medium != source
    {
      hide Kept, SameReads;
      erased := false;
      ghost var before := db;
      if w.formatRc == 0 || w.formatErases {
        erased := true;
        if NoReference(before, source) {
          EraseKeeps(before, source);
          KeptThen(start, before, Erase(before, source));
        } else {
          LostByErase(before, source);
        }
        Update(Erase(db, source));
      }
      rc := w.formatRc;
      if rc != 0 {
        return;
      }
      rc := w.cleanRc;
      if rc != 0 {
        return;
      }
      if NoReference(before, source) {
        DeleteRowsKeeps(db, source);
        KeptThen(start, db, DeleteRows(db, source));
      }
      Update(DeleteRows(db, source));
    }

    /** After an interruption the recorded copies become orphan, whether layouts were switched to them or not. */
    method Abandon(copies: seq<Uuid>, w: World, ghost start: Db) returns (rc: int)
      requires AllKept(start)
      modifies this
      ensures AllKept(start)
      ensures rc == if copies == [] then 0 else w.stateRc
      ensures db == if copies != [] && rc == 0 then SetState(old(db), copies, Orphan) else old(db)
    {
      hide Kept, SetState;
      rc := 0;
      if copies == [] {
        return;
      }
      rc := w.stateRc;
      if rc == 0 {
        SetStateKeeps(db, copies, Orphan);
        KeptThen(start, db, SetState(db, copies, Orphan));
        Update(SetState(db, copies, Orphan));
      }
    }

    /** Copies the live extents and switches the layouts to the copies. */
    method MoveAll(source: Medium, live: seq<Uuid>, w: World, ghost start: Db, ghost from: Db)
      returns (rc: int, copies: seq<Uuid>)
      requires db == from && AllKept(start) && Ready(from, source, w) && Lists(from, source, live)
      requires (forall i :: 0 <= i < |live| ==> Fetch(from, live[i]).Some?) && Used(from, live)
      modifies this
      ensures AllKept(start)
      ensures rc == 0 <==> MoveSucceeds(w, |live|)
      ensures rc != 0 ==>
        Stopped(db, copies, w.target, CopiesSucceed(w, |live|) && w.releaseRc == 0 && w.migrateRc(0) == 0)
      ensures Elsewhere(from, db, source) && forall u: Uuid :: u in copies ==> u !in from.rows
      ensures copies == [] <==> |live| == 0 || !CopiesSucceed(w, 1)
      ensures rc == 0 ==> (NoReference(db, source) <==> NoOrphan(from, source))
      ensures rc == 0 && NoOrphan(from, source) ==> Moved(from, db, source, w.target)
    {
      hide AllReadable, NoReference, DistinctAddresses, FreshUuids, Lists, NoOrphan, Moved, Copied, Kept, Fetch,
        CopiesSucceed, Used, Stopped, Elsewhere;
      rc, copies := CopyAll(source, live, w, start, from);
      CopiedStopped(from, db, live, copies, w.target);
      CopiedElsewhere(from, db, live, copies, source, w.target);
      if rc != 0 {
        return;
      }
      rc := w.releaseRc;
      if rc != 0 {
        return;
      }
      rc := SwitchAll(source, live, copies, w, start, from);
    }

    /**
     Repacks a tape. All the states on the way keep the data of every layout if and only if the source was not erased
     or all that layouts refer to on it had been copied. An interrupted repack answers with the result of the update
     that makes the copies orphan, which may be a success. Layouts then refer to orphan copies exactly if the first
     switch and that update succeeded, and a repack of the target would lose them.
     */
    method Repack(isTape: bool, source: Medium, w: World) returns (rc: int, ghost erased: bool)
      requires history == [db] && Ready(db, source, w)
      modifies this
      ensures var from := Collected(old(db), source);
        && rc == Answer(w, isTape, HasData(from, source), |LiveSet(from, source)|)
        && (erased <==>
              Reaches(w, isTape, HasData(from, source), |LiveSet(from, source)|) && (w.formatRc == 0 || w.formatErases))
        && ((forall i :: 0 <= i < |history| ==> Kept(old(db), history[i])) <==> !erased || AllCopied(from, source))
        && (erased && !AllCopied(from, source) ==> !AllReadable(db))
        && OthersKept(old(db), db, source)
        && (Interrupted(w, isTape, HasData(from, source), |LiveSet(from, source)|) ==>
              && (!NoOrphan(db, w.target) <==> LeavesOrphans(w, |LiveSet(from, source)|))
              && (!NoOrphan(db, w.target) ==> !AllCopied(Collected(db, w.target), w.target)))
        && (Completes(w, isTape, HasData(from, source), |LiveSet(from, source)|) && AllCopied(from, source) ==>
              NoReference(db, source) && Moved(from, db, source, w.target))
    {
      hide Kept, AllReadable, NoReference, DistinctAddresses, FreshUuids, Ready, Lists, NoOrphan, Moved, Collected,
        HasData, AllCopied, CopiesSucceed, MoveSucceeds, TotalSize, OthersKept, Elsewhere, Forget;
      erased := false;
      if !isTape {
        KeptItself(db);
        ForgetOthers(db, source);
        return -ENOTSUP, false;
      }
      ghost var start := db;
      KeptItself(db);
      rc := CollectGarbage(source, w, start);
      if rc == 0 {
        ghost var from := db;
        CollectedReady(start, source, w);
        rc, erased := RepackLive(source, w, start, from);
        OthersThenElsewhere(start, from, db, source);
        if !AllReadable(db) {
          NotKept(start, db, source, w);
        }
      }
    }

    /** The repack of a tape after garbage collection. */
    method RepackLive(source: Medium, w: World, ghost start: Db, ghost from: Db) returns (rc: int, ghost erased: bool)
      requires db == from == Collected(start, source) && AllKept(start) && Ready(from, source, w)
      modifies this
      ensures rc == AnswerLive(w, HasData(from, source), |LiveSet(from, source)|)
      ensures erased <==>
        ReachesLive(w, HasData(from, source), |LiveSet(from, source)|) && (w.formatRc == 0 || w.formatErases)
      ensures Recorded() && (AllKept(start) || (erased && !AllCopied(from, source)))
      ensures erased && !AllCopied(from, source) ==> !AllReadable(db)
      ensures Elsewhere(from, db, source)
      ensures InterruptedLive(w, HasData(from, source), |LiveSet(from, source)|) ==>
        && (!NoOrphan(db, w.target) <==> LeavesOrphans(w, |LiveSet(from, source)|))
        && (!NoOrphan(db, w.target) ==> !AllCopied(Collected(db, w.target), w.target))
      ensures ReachesLive(w, HasData(from, source), |LiveSet(from, source)|) && rc == 0 && AllCopied(from, source) ==>
        NoReference(db, source) && Moved(from, db, source, w.target)
    {
      hide Kept, AllReadable, NoReference, DistinctAddresses, FreshUuids, Ready, Lists, NoOrphan, Moved, Collected,
        HasData, AllCopied, CopiesSucceed, MoveSucceeds, TotalSize, Fetch, Used, Stopped, SetState, Elsewhere;
      erased := false;
      ElsewhereItself(from, source);
      rc := w.listRc;
      if rc != 0 {
        return;
      }
      var live := GetExtents(db, source);
      ListIsLive(from, source, live);
      LiveIsFetched(start, source, w, live);
      LiveIsUsed(start, source, live);
      rc := w.infoRc;
      if rc != 0 {
        return;
      }
      var total := TotalSize(db, live);
      if total != 0 {
        rc := w.readRc;
        if rc != 0 {
          return;
        }
        rc := w.writeRc;
        if rc != 0 {
          return;
        }
        var copies;
        rc, copies := MoveAll(source, live, w, start, from);
        if rc != 0 {
          AbandonedIff(db, copies, w.target, CopiesSucceed(w, |live|) && w.releaseRc == 0 && w.migrateRc(0) == 0);
          NothingAbandoned(db, w.target, CopiesSucceed(w, |live|) && w.releaseRc == 0 && w.migrateRc(0) == 0);
          AbandonedElsewhere(from, db, copies, source);
          rc := Abandon(copies, w, start);
          return;
        }
      } else {
        NothingMoved(from, source, w.target);
      }
      SafeIff(from, source);
      ghost var before := db;
      rc, erased := FormatAndClean(source, w, start);
      StillMoved(from, before, db, source, w.target);
      ElsewhereThen(from, before, db, source);
    }
  }

  // ---------------------------------------------------------------- answers

  /** The first `n` copies are made and recorded. */
  ghost predicate CopiesSucceed(w: World, n: nat) {
    forall k: nat :: k < n ==> w.copyRc(k) == 0 && w.insertRc(k) == 0
  }

  ghost predicate MoveSucceeds(w: World, n: nat) {
    CopiesSucceed(w, n) && w.releaseRc == 0 && forall k: nat :: k < n ==> w.migrateRc(k) == 0
  }

  /** The copies or the switches are interrupted by a failure. */
  ghost predicate InterruptedLive(w: World, hasData: bool, n: nat) {
    w.listRc == 0 && w.infoRc == 0 && hasData && w.readRc == 0 && w.writeRc == 0 && !MoveSucceeds(w, n)
  }

  ghost predicate Interrupted(w: World, isTape: bool, hasData: bool, n: nat) {
    isTape && w.forgetRc == 0 && w.orphansRc == 0 && InterruptedLive(w, hasData, n)
  }

  /** The first switch succeeded, and the update that makes the copies orphan. */
  ghost predicate LeavesOrphans(w: World, n: nat) {
    CopiesSucceed(w, n) && w.releaseRc == 0 && w.migrateRc(0) == 0 && w.stateRc == 0
  }

  /** The repack comes to the format of the source. */
  ghost predicate ReachesLive(w: World, hasData: bool, n: nat) {
    w.listRc == 0 && w.infoRc == 0 && (hasData ==> w.readRc == 0 && w.writeRc == 0 && MoveSucceeds(w, n))
  }

  ghost predicate Reaches(w: World, isTape: bool, hasData: bool, n: nat) {
    isTape && w.forgetRc == 0 && w.orphansRc == 0 && ReachesLive(w, hasData, n)
  }

  ghost predicate Completes(w: World, isTape: bool, hasData: bool, n: nat) {
    Reaches(w, isTape, hasData, n) && w.formatRc == 0 && w.cleanRc == 0
  }

  ghost function AnswerLive(w: World, hasData: bool, n: nat): int {
    if w.listRc != 0 then w.listRc
    else if w.infoRc != 0 then w.infoRc
    else if hasData && w.readRc != 0 then w.readRc
    else if hasData && w.writeRc != 0 then w.writeRc
    else if hasData && !MoveSucceeds(w, n) then if n == 0 || !CopiesSucceed(w, 1) then 0 else w.stateRc
    else if w.formatRc != 0 then w.formatRc
    else w.cleanRc
  }

  /** What the repack returns. */
  ghost function Answer(w: World, isTape: bool, hasData: bool, n: nat): int {
    if !isTape then -ENOTSUP
    else if w.forgetRc != 0 then w.forgetRc
    else if w.orphansRc != 0 then w.orphansRc
    else AnswerLive(w, hasData, n)
  }

  function LiveSet(db: Db, m: Medium): set<Uuid> {
    set u | u in db.rows && IsLive(db, u, m)
  }

  lemma {:induction false} ListSize(us: seq<Uuid>, set_: set<Uuid>)
    requires NoDup(us) && forall u: Uuid :: u in us <==> u in set_
    ensures |us| == |set_|
  {
    if us != [] {
      var last := |us| - 1;
      assert us == us[..last] + [us[last]];
      ListSize(us[..last], set_ - {us[last]});
    } else {
      assert set_ == {};
    }
  }

  lemma {:induction false} NotKept(start: Db, db: Db, source: Medium, w: World)
    requires Ready(start, source, w) && !AllReadable(db)
    ensures !Kept(start, db)
  {
    var slot: Slot :| slot in db.layout && Read(db, slot).None?;
    assert slot in start.layout ==> Read(start, slot).Some?;
  }

  /** The list has the live extents, and their total size tells if there is data. */
  lemma {:induction false} ListIsLive(db: Db, m: Medium, live: seq<Uuid>)
    requires Lists(db, m, live)
    ensures |live| == |LiveSet(db, m)| && (forall u :: u in live ==> u in db.rows)
    ensures TotalSize(db, live) != 0 <==> HasData(db, m)
  {
    assert forall u: Uuid :: u in live ==> IsLive(db, u, m);
    ListSize(live, LiveSet(db, m));
    TotalIsZero(db, live);
  }

  /** After garbage collection the live extents are referred to, so they can be read. */
  lemma {:induction false} LiveIsFetched(start: Db, source: Medium, w: World, live: seq<Uuid>)
    requires Ready(Collected(start, source), source, w) && Lists(Collected(start, source), source, live)
    ensures forall i :: 0 <= i < |live| ==> Fetch(Collected(start, source), live[i]).Some?
  {
    hide Fetch, Forget;
    var before, db := Forget(start, source), Collected(start, source);
    forall i | 0 <= i < |live|
      ensures Fetch(db, live[i]).Some?
    {
      assert IsLive(db, live[i], source);
      assert live[i] in before.layout.Values;
      var slot: Slot :| slot in before.layout && before.layout[slot] == live[i];
      assert Read(db, slot).Some?;
    }
  }

  lemma {:induction false} LiveIsUsed(start: Db, source: Medium, live: seq<Uuid>)
    requires Lists(Collected(start, source), source, live)
    ensures Used(Collected(start, source), live)
  {
    var before, db := Forget(start, source), Collected(start, source);
    forall u: Uuid | u in live
      ensures exists slot: Slot :: slot in db.layout && slot.0 !in db.deprecated && db.layout[slot] == u
    {
      assert IsLive(db, u, source);
      assert u in before.layout.Values;
      var slot: Slot :| slot in before.layout && before.layout[slot] == u;
      assert slot.0 !in Garbage(start, source);
    }
  }

  lemma {:induction false} NothingAbandoned(db: Db, target: Medium, some: bool)
    ensures Stopped(db, [], target, some) ==> !some
  {
  }

  lemma {:induction false} SafeIff(from: Db, source: Medium)
    ensures AllCopied(from, source) <==>
      if HasData(from, source) then NoOrphan(from, source) else NoReference(from, source)
  {
  }

  lemma {:induction false} ElsewhereItself(db: Db, m: Medium)
    ensures Elsewhere(db, db, m)
  {
  }

  /** Without a reference to the source there is nothing to move. */
  lemma {:induction false} NothingMoved(db: Db, source: Medium, target: Medium)
    ensures NoReference(db, source) ==> Moved(db, db, source, target)
  {
  }

  lemma {:induction false} StillMoved(from: Db, before: Db, db: Db, source: Medium, target: Medium)
    requires db.layout == before.layout && Elsewhere(before, db, source)
    ensures Moved(from, before, source, target) && NoReference(before, source) ==> Moved(from, db, source, target)
    ensures (forall u: Uuid :: u in db.rows ==> db.rows[u].medium != source) ==> NoReference(db, source)
  {
  }

  lemma {:induction false} NextRow(from: Db, db: Db, live: seq<Uuid>, copies: seq<Uuid>, source: Medium, target: Medium)
    requires Copied(from, db, live, copies, target) && |copies| < |live| && source != target
    requires Lists(from, source, live)
    ensures live[|copies|] in db.rows && live[|copies|] in from.rows
    ensures db.rows[live[|copies|]] == from.rows[live[|copies|]]
    ensures from.rows[live[|copies|]].medium == source
    ensures Fetch(db, live[|copies|]) == Fetch(from, live[|copies|])
  {
    assert IsLive(from, live[|copies|], source);
  }

  lemma {:induction false} CopiedKept(start: Db, from: Db, db: Db, live: seq<Uuid>, copies: seq<Uuid>, target: Medium)
    requires Kept(start, from) && Copied(from, db, live, copies, target) && NoReference(from, target)
    requires AllReadable(from)
    ensures Kept(start, db)
  {
    hide Kept, Copied, NoReference, AllReadable, SameReads;
    CopiedKeeps(from, db, live, copies, target);
    KeptThen(start, from, db);
  }

  lemma {:induction false} StillFresh(from: Db, db: Db, live: seq<Uuid>, copies: seq<Uuid>, target: Medium, u: Uuid)
    requires Copied(from, db, live, copies, target) && u !in from.rows && u !in copies
    ensures u !in db.rows
  {
  }

  /** The identifiers of the copies are new and distinct. */
  ghost predicate FreshUuids(db: Db, w: World) {
    && (forall k: nat :: w.uuid(k) !in db.rows)
    && forall i: nat, j: nat :: i != j ==> w.uuid(i) != w.uuid(j)
  }

  lemma {:induction false} SwitchKept(start: Db, from: Db, mid: Db, db: Db, live: seq<Uuid>, copies: seq<Uuid>,
                                      source: Medium, target: Medium, k: nat)
    requires Copied(from, mid, live, copies, target) && Switched(mid, db, live, copies, k) && k < |live|
    requires Lists(from, source, live) && source != target && Kept(start, db) && |copies| == |live|
    ensures Switched(mid, Migrate(db, live[k], copies[k]), live, copies, k + 1)
    ensures Kept(start, Migrate(db, live[k], copies[k]))
  {
    hide Kept, Copied, Switched, Migrate, SameReads, Fetch;
    SwitchNext(from, mid, db, live, copies, target, k);
    SwitchedFetch(mid, db, live, copies, k, live[k]);
    SwitchedFetch(mid, db, live, copies, k, copies[k]);
    SameCopy(from, mid, live, copies, source, target, k);
    MigrateKeeps(db, live[k], copies[k]);
    KeptThen(start, db, Migrate(db, live[k], copies[k]));
  }

  lemma {:induction false} SameCopy(from: Db, mid: Db, live: seq<Uuid>, copies: seq<Uuid>, source: Medium,
                                    target: Medium, k: nat)
    requires Copied(from, mid, live, copies, target) && k < |copies| && Lists(from, source, live) && source != target
    ensures Fetch(mid, copies[k]) == Fetch(mid, live[k])
  {
    hide Fetch;
    assert IsLive(from, live[k], source);
  }

  lemma {:induction false} LostByErase(db: Db, m: Medium)
    requires !NoReference(db, m)
    ensures !AllReadable(Erase(db, m)) && !AllReadable(DeleteRows(Erase(db, m), m))
  {
    var slot: Slot :| slot in db.layout && OnMedium(db, db.layout[slot], m);
    EraseLoses(db, m, slot);
  }

  /**
   A repack can start: layouts are readable, none refers to the target, the addresses of the source are distinct, and
   the copies get new identifiers.
   */
  ghost predicate Ready(db: Db, source: Medium, w: World) {
    && AllReadable(db) && w.target != source && NoReference(db, w.target)
    && DistinctAddresses(db, source) && FreshUuids(db, w)
  }

  lemma {:induction false} CollectedRows(db: Db, m: Medium)
    ensures var after := Collected(db, m);
      && after.rows.Keys == db.rows.Keys && after.media == db.media
      && (forall u: Uuid :: u in db.rows ==> SameExtent(after.rows[u], db.rows[u]))
      && (forall slot: Slot :: slot in after.layout ==> slot in db.layout && after.layout[slot] == db.layout[slot])
  {
  }

  lemma {:induction false} CollectedReady(db: Db, source: Medium, w: World)
    requires Ready(db, source, w)
    ensures Ready(Collected(db, source), source, w)
  {
    hide Collected;
    CollectedRows(db, source);
    var after := Collected(db, source);
    forall slot: Slot | slot in after.layout
      ensures Read(after, slot).Some?
    {
      assert Read(db, slot).Some?;
    }
  }

  // ---------------------------------------------------------------- after an interruption

  /** An interrupted repack reports a success when the copies could be made orphan. */
  lemma {:induction false} InterruptedAnswer(w: World, n: nat)
    requires w.forgetRc == w.orphansRc == w.listRc == w.infoRc == w.readRc == w.writeRc == 0
    requires !MoveSucceeds(w, n) && w.stateRc == 0
    ensures Answer(w, true, true, n) == 0 && !Reaches(w, true, true, n)
  {
  }
}
