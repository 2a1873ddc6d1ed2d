/** The server's store of uploaded changes: every change waits for the devices that have not
    acknowledged it, and a quota counter per user, kept by triggers, bounds what is stored. */
module ServerDb {
  import opened ByteArrays
  import opened Rows

  type Device = string
  type User = nat

  /** A row of datachanges.  The serial id orders the rows by insertion. */
  datatype Change = Change(id: nat, device: Device, dataId: Bytes, keyIndex: nat, salt: Bytes, data: Bytes)

  /** A row of devicechanges: the device has not acknowledged the change. */
  datatype Wait = Wait(device: Device, id: nat)

  /** QuotaHit is the check violation that the caller reports, Failed any other database error. */
  datatype Outcome = Done | QuotaHit | Failed

  // ---- what the tables mean

  /** The bytes stored for a user. */
  function Stored(users: map<Device, User>, changes: seq<Change>, u: User): nat {
    if changes == [] then 0
    else
      var c := changes[|changes| - 1];
      Stored(users, changes[..|changes| - 1], u) + if c.device in users && users[c.device] == u then |c.data| else 0
  }

  /** The ids waiting for a device, in the order they are delivered in. */
  function Pending(changes: seq<Change>, waits: set<Wait>, d: Device): seq<nat> {
    if changes == [] then []
    else
      var id := changes[|changes| - 1].id;
      var earlier := Pending(changes[..|changes| - 1], waits, d);
      if Wait(d, id) in waits then earlier + [id] else earlier
  }

  function Removed(ids: seq<nat>, id: nat): seq<nat> {
    if ids == [] then []
    else
      var last, rest := ids[|ids| - 1], Removed(ids[..|ids| - 1], id);
      if last == id then rest else rest + [last]
  }

  function Dropped(changes: seq<Change>, id: nat): seq<Change> {
    if changes == [] then []
    else
      var c, rest := changes[|changes| - 1], Dropped(changes[..|changes| - 1], id);
      if c.id == id then rest else rest + [c]
  }

  function WaitsDropped(waits: set<Wait>, id: nat): set<Wait> {
    set w | w in waits && w.id != id
  }

  /** Somebody is still waiting for the change. */
  ghost predicate Awaited(waits: set<Wait>, id: nat) {
    exists w :: w in waits && w.id == id
  }

  /** Ids ascend, and a device has one change for each data id. */
  ghost predicate Ordered(changes: seq<Change>) {
    && (forall i, j :: 0 <= i < j < |changes| ==> changes[i].id < changes[j].id)
    && (forall i, j :: 0 <= i < j < |changes| ==>
          changes[i].device != changes[j].device || changes[i].dataId != changes[j].dataId)
  }

  ghost predicate HasId(changes: seq<Change>, id: nat) {
    exists i :: 0 <= i < |changes| && changes[i].id == id
  }

  /** References resolve, and ids are handed out once. */
  ghost predicate References(devices: set<Device>, changes: seq<Change>, waits: set<Wait>, nextId: nat) {
    && Ordered(changes)
    && (forall i :: 0 <= i < |changes| ==> changes[i].device in devices && changes[i].id < nextId)
    && (forall w :: w in waits ==> w.device in devices && HasId(changes, w.id))
  }

  ghost predicate Ascends(ids: seq<nat>) {
    forall i, j :: 0 <= i < j < |ids| ==> ids[i] < ids[j]
  }

  /** The counter is what is stored. */
  ghost predicate CounterOk(users: map<Device, User>, changes: seq<Change>, quota: map<User, int>) {
    forall u :: u in quota ==> quota[u] == Stored(users, changes, u)
  }

  /** The row a device has for a data id. */
  ghost predicate IsRowOf(changes: seq<Change>, i: int, d: Device, dataId: Bytes) {
    0 <= i < |changes| && changes[i].device == d && changes[i].dataId == dataId
  }

  // ---- sums and deletions

  lemma {:induction false} DroppedOnly(changes: seq<Change>, i: nat)
    requires i < |changes| && forall j :: 0 <= j < |changes| && j != i ==> changes[j].id != changes[i].id
    ensures Dropped(changes, changes[i].id) == changes[..i] + changes[i + 1..]
  {
    var n := |changes| - 1;
    var init, last := changes[..n], changes[n];
    if i == n {
      DroppedNothing(init, changes[i].id);
      assert changes[..i] + changes[i + 1..] == init;
    } else {
      assert init[i] == changes[i];
      DroppedOnly(init, i);
      assert changes[..i] + changes[i + 1..] == init[..i] + init[i + 1..] + [last];
    }
  }

  lemma DroppedAt(changes: seq<Change>, i: nat)
    requires Ordered(changes) && i < |changes|
    ensures Dropped(changes, changes[i].id) == changes[..i] + changes[i + 1..]
  {
    DroppedOnly(changes, i);
  }

  lemma {:induction false} DroppedNothing(changes: seq<Change>, id: nat)
    requires forall i :: 0 <= i < |changes| ==> changes[i].id != id
    ensures Dropped(changes, id) == changes
  {
    if changes != [] { DroppedNothing(changes[..|changes| - 1], id); }
  }

  lemma DropKeepsReferences(devices: set<Device>, changes: seq<Change>, waits: set<Wait>, nextId: nat, i: nat)
    requires References(devices, changes, waits, nextId) && i < |changes|
    ensures References(devices, changes[..i] + changes[i + 1..], WaitsDropped(waits, changes[i].id), nextId)
  {
    var rest := changes[..i] + changes[i + 1..];
    forall w | w in WaitsDropped(waits, changes[i].id) ensures HasId(rest, w.id) {
      var k :| 0 <= k < |changes| && changes[k].id == w.id;
      assert rest[if k < i then k else k - 1].id == w.id;
    }
  }

  lemma AddKeepsReferences(devices: set<Device>, changes: seq<Change>, waits: set<Wait>, nextId: nat, c: Change)
    requires References(devices, changes, waits, nextId) && c.id == nextId && c.device in devices
    requires forall i :: !IsRowOf(changes, i, c.device, c.dataId)
    ensures References(devices, changes + [c], waits, nextId + 1)
  {
    var all := changes + [c];
    forall i | 0 <= i < |changes|
      ensures changes[i].device != c.device || changes[i].dataId != c.dataId
    {
      assert !IsRowOf(changes, i, c.device, c.dataId);
    }
    forall w | w in waits ensures HasId(all, w.id) {
      var k :| 0 <= k < |changes| && changes[k].id == w.id;
      assert all[k].id == w.id;
    }
  }

  lemma {:induction false} StoredWithout(users: map<Device, User>, changes: seq<Change>, i: nat, u: User)
    requires i < |changes|
    ensures Stored(users, changes, u) == Stored(users, changes[..i] + changes[i + 1..], u)
              + if changes[i].device in users && users[changes[i].device] == u then |changes[i].data| else 0
  {
    var n := |changes| - 1;
    if i == n {
      assert changes[..i] + changes[i + 1..] == changes[..n];
    } else {
      var rest := changes[..i] + changes[i + 1..];
      StoredWithout(users, changes[..n], i, u);
      assert rest[..|rest| - 1] == changes[..n][..i] + changes[..n][i + 1..];
      assert rest[|rest| - 1] == changes[n];
    }
  }

  lemma DropKeepsCount(users: map<Device, User>, changes: seq<Change>, quota: map<User, int>, i: nat)
    requires CounterOk(users, changes, quota) && i < |changes|
    requires changes[i].device in users && users[changes[i].device] in quota
    ensures
      var u := users[changes[i].device];
      quota[u] >= |changes[i].data|
      && CounterOk(users, changes[..i] + changes[i + 1..], quota[u := quota[u] - |changes[i].data|])
  {
    forall v ensures Stored(users, changes, v) == Stored(users, changes[..i] + changes[i + 1..], v)
                       + if users[changes[i].device] == v then |changes[i].data| else 0 {
      StoredWithout(users, changes, i, v);
    }
  }

  lemma AddKeepsCount(users: map<Device, User>, changes: seq<Change>, quota: map<User, int>, c: Change)
    requires CounterOk(users, changes, quota) && c.device in users && users[c.device] in quota
    ensures CounterOk(users, changes + [c], quota[users[c.device] := quota[users[c.device]] + |c.data|])
  {
    assert (changes + [c])[..|changes|] == changes;
  }

  // ---- what the operations do to the queue of a device

  lemma PendingSnoc(init: seq<Change>, c: Change, waits: set<Wait>, d: Device)
    ensures Pending(init + [c], waits, d)
         == if Wait(d, c.id) in waits then Pending(init, waits, d) + [c.id] else Pending(init, waits, d)
  {
    assert (init + [c])[..|init|] == init;
  }

  lemma RemovedSnoc(ids: seq<nat>, x: nat, id: nat)
    ensures Removed(ids + [x], id) == if x == id then Removed(ids, id) else Removed(ids, id) + [x]
  {
    assert (ids + [x])[..|ids|] == ids;
  }

  lemma {:induction false} PendingIn(changes: seq<Change>, waits: set<Wait>, d: Device, id: nat)
    ensures id in Pending(changes, waits, d) <==> HasId(changes, id) && Wait(d, id) in waits
  {
    if changes != [] {
      var n := |changes| - 1;
      PendingIn(changes[..n], waits, d, id);
      if HasId(changes[..n], id) {
        var i :| 0 <= i < n && changes[..n][i].id == id;
        assert changes[i].id == id;
      }
      if changes[n].id == id { assert HasId(changes, id); }
      if HasId(changes, id) && changes[n].id != id {
        var i :| 0 <= i < |changes| && changes[i].id == id;
        assert changes[..n][i].id == id;
      }
    }
  }

  lemma {:induction false} PendingAscends(changes: seq<Change>, waits: set<Wait>, d: Device)
    requires Ordered(changes)
    ensures Ascends(Pending(changes, waits, d))
  {
    if changes != [] {
      var n := |changes| - 1;
      PendingAscends(changes[..n], waits, d);
      var q := Pending(changes[..n], waits, d);
      forall i | 0 <= i < |q| ensures q[i] < changes[n].id {
        PendingIn(changes[..n], waits, d, q[i]);
        var k :| 0 <= k < |changes[..n]| && changes[..n][k].id == q[i];
        assert changes[k].id == q[i];
      }
    }
  }

  lemma {:induction false} PendingSame(changes: seq<Change>, waits: set<Wait>, waits': set<Wait>, d: Device)
    requires forall i :: 0 <= i < |changes| ==> (Wait(d, changes[i].id) in waits <==> Wait(d, changes[i].id) in waits')
    ensures Pending(changes, waits, d) == Pending(changes, waits', d)
  {
    if changes != [] { PendingSame(changes[..|changes| - 1], waits, waits', d); }
  }

  /** A newer change goes to the end of the queue of each device that waits for it. */
  lemma PendingAppend(changes: seq<Change>, waits: set<Wait>, c: Change, targets: set<Device>, d: Device)
    requires forall i :: 0 <= i < |changes| ==> changes[i].id < c.id
    requires forall w :: w in waits ==> w.id < c.id
    ensures Pending(changes + [c], waits + (set x | x in targets :: Wait(x, c.id)), d)
         == if d in targets then Pending(changes, waits, d) + [c.id] else Pending(changes, waits, d)
  {
    var all := changes + [c];
    var waits' := waits + (set x | x in targets :: Wait(x, c.id));
    assert all[..|all| - 1] == changes;
    PendingSame(changes, waits, waits', d);
    assert Wait(d, c.id) in waits' <==> d in targets;
  }

  /** Deleting a change removes it from every queue. */
  lemma {:induction false} PendingDrop(changes: seq<Change>, waits: set<Wait>, id: nat, d: Device)
    ensures Pending(Dropped(changes, id), WaitsDropped(waits, id), d) == Removed(Pending(changes, waits, d), id)
  {
    if changes != [] {
      var n := |changes| - 1;
      var c := changes[n];
      PendingDrop(changes[..n], waits, id, d);
      PendingSnoc(Dropped(changes[..n], id), c, WaitsDropped(waits, id), d);
      RemovedSnoc(Pending(changes[..n], waits, d), c.id, id);
    }
  }

  /** An acknowledgement removes the change from the queue of its sender and from no other. */
  lemma {:induction false} PendingAck(changes: seq<Change>, waits: set<Wait>, e: Device, id: nat, d: Device)
    ensures Pending(changes, waits - {Wait(e, id)}, d)
         == if d == e then Removed(Pending(changes, waits, d), id) else Pending(changes, waits, d)
  {
    if d != e {
      PendingSame(changes, waits, waits - {Wait(e, id)}, d);
    } else if changes != [] {
      var n := |changes| - 1;
      PendingAck(changes[..n], waits, e, id, d);
      RemovedSnoc(Pending(changes[..n], waits, d), changes[n].id, id);
    }
  }

  lemma {:induction false} PendingDropUnawaited(changes: seq<Change>, waits: set<Wait>, id: nat, d: Device)
    requires !Awaited(waits, id)
    ensures Pending(Dropped(changes, id), waits, d) == Pending(changes, waits, d)
  {
    if changes != [] {
      var n := |changes| - 1;
      PendingDropUnawaited(changes[..n], waits, id, d);
      PendingSnoc(Dropped(changes[..n], id), changes[n], waits, d);
    }
  }

  // ---- the operations on the tables

  datatype Tables = Tables(changes: seq<Change>, waits: set<Wait>)

  /** The id of the row that a device has for a data id. */
  ghost function RowId(changes: seq<Change>, d: Device, dataId: Bytes): Option<nat> {
    if changes == [] then None
    else
      var c := changes[|changes| - 1];
      if c.device == d && c.dataId == dataId then Some(c.id) else RowId(changes[..|changes| - 1], d, dataId)
  }

  function OthersOf(users: map<Device, User>, d: Device): set<Device> {
    set x | x in users && d in users && users[x] == users[d] && x != d
  }

  ghost function Superseded(t: Tables, d: Device, dataId: Bytes): Tables {
    match RowId(t.changes, d, dataId)
    case None => t
    case Some(id) => Tables(Dropped(t.changes, id), WaitsDropped(t.waits, id))
  }

  /** An upload replaces the device's earlier one of the same object and waits for every other
      device of the user; without any it is not kept. */
  ghost function Added(users: map<Device, User>, t: Tables, c: Change): Tables {
    var t', others := Superseded(t, c.device, c.dataId), OthersOf(users, c.device);
    if others == {} then t' else Tables(t'.changes + [c], t'.waits + set x | x in others :: Wait(x, c.id))
  }

  /** An upload for one device; data that is stored already is not replaced. */
  ghost function AddedFor(t: Tables, c: Change, target: Device): Tables {
    match RowId(t.changes, c.device, c.dataId)
    case None => Tables(t.changes + [c], t.waits + {Wait(target, c.id)})
    case Some(id) => Tables(t.changes, t.waits + {Wait(target, id)})
  }

  ghost function Completed(t: Tables, d: Device, id: nat): Tables {
    var waits' := t.waits - {Wait(d, id)};
    Tables(if Awaited(waits', id) then t.changes else Dropped(t.changes, id), waits')
  }

  lemma {:induction false} RowIdIs(changes: seq<Change>, d: Device, dataId: Bytes)
    ensures RowId(changes, d, dataId).None? <==> forall i :: !IsRowOf(changes, i, d, dataId)
    ensures Ordered(changes) ==> forall i :: IsRowOf(changes, i, d, dataId) ==> RowId(changes, d, dataId) == Some(changes[i].id)
    ensures RowId(changes, d, dataId).Some? ==> HasId(changes, RowId(changes, d, dataId).value)
  {
    if changes != [] {
      var n := |changes| - 1;
      var init := changes[..n];
      RowIdIs(init, d, dataId);
      forall i ensures IsRowOf(changes, i, d, dataId) <==> IsRowOf(init, i, d, dataId) || (i == n && IsRowOf(changes, n, d, dataId)) {
        if 0 <= i < n { assert init[i] == changes[i]; }
      }
      if IsRowOf(changes, n, d, dataId) {
        assert HasId(changes, changes[n].id);
      } else if RowId(init, d, dataId).Some? {
        var k :| 0 <= k < |init| && init[k].id == RowId(init, d, dataId).value;
        assert changes[k].id == RowId(init, d, dataId).value;
      }
    }
  }

  lemma NoOtherRow(changes: seq<Change>, i: nat, d: Device, dataId: Bytes)
    requires Ordered(changes) && IsRowOf(changes, i, d, dataId)
    ensures var rest := Dropped(changes, changes[i].id); forall k :: !IsRowOf(rest, k, d, dataId)
  {
    var rest := changes[..i] + changes[i + 1..];
    DroppedAt(changes, i);
    forall k | 0 <= k < |rest| ensures !IsRowOf(rest, k, d, dataId) {
      assert rest[k] == changes[if k < i then k else k + 1];
    }
  }

  // ---- the queues of the devices

  /** After an upload the queue of every device has lost the superseded change, and those of the
      other devices of the same user end with the new one. */
  lemma AddedQueue(users: map<Device, User>, t: Tables, c: Change, nextId: nat, d: Device)
    requires References(users.Keys, t.changes, t.waits, nextId) && c.id == nextId
    ensures
      var t' := Added(users, t, c);
      var q := Pending(t.changes, t.waits, d);
      var old' := RowId(t.changes, c.device, c.dataId);
      var kept := if old'.Some? then Removed(q, old'.value) else q;
      Pending(t'.changes, t'.waits, d) ==
        if d in users && c.device in users && users[d] == users[c.device] && d != c.device then kept + [c.id] else kept
  {
    var t1 := Superseded(t, c.device, c.dataId);
    RowIdIs(t.changes, c.device, c.dataId);
    var old' := RowId(t.changes, c.device, c.dataId);
    if old'.Some? {
      PendingDrop(t.changes, t.waits, old'.value, d);
      var i :| 0 <= i < |t.changes| && t.changes[i].id == old'.value;
      DroppedAt(t.changes, i);
      DropKeepsReferences(users.Keys, t.changes, t.waits, nextId, i);
    }
    WaitsAreOld(users.Keys, t1.changes, t1.waits, nextId);
    assert d in OthersOf(users, c.device) <==>
           d in users && c.device in users && users[d] == users[c.device] && d != c.device;
    if OthersOf(users, c.device) != {} {
      PendingAppend(t1.changes, t1.waits, c, OthersOf(users, c.device), d);
    }
  }

  // ---- the operations, one row at a time

  /** A queue holds, in ascending order, what the device waits for. */
  lemma QueueIs(devices: set<Device>, t: Tables, nextId: nat, x: Device)
    requires References(devices, t.changes, t.waits, nextId)
    ensures Ascends(Pending(t.changes, t.waits, x))
    ensures forall id :: id in Pending(t.changes, t.waits, x) <==> Wait(x, id) in t.waits
  {
    PendingAscends(t.changes, t.waits, x);
    forall id ensures id in Pending(t.changes, t.waits, x) <==> Wait(x, id) in t.waits {
      PendingIn(t.changes, t.waits, x, id);
    }
  }

  /** The change `id` is the one that `d` has for a data id. */
  ghost predicate IsOf(changes: seq<Change>, id: nat, d: Device, dataId: Bytes) {
    exists c :: c in changes && c.id == id && c.device == d && c.dataId == dataId
  }

  lemma {:induction false} RemovedIn(ids: seq<nat>, x: nat)
    ensures forall id :: id in Removed(ids, x) <==> id in ids && id != x
  {
    if ids != [] {
      RemovedIn(ids[..|ids| - 1], x);
      assert ids == ids[..|ids| - 1] + [ids[|ids| - 1]];
    }
  }

  lemma {:induction false} DroppedIs(changes: seq<Change>, id: nat)
    ensures forall c :: c in Dropped(changes, id) <==> c in changes && c.id != id
  {
    if changes != [] {
      DroppedIs(changes[..|changes| - 1], id);
      assert changes == changes[..|changes| - 1] + [changes[|changes| - 1]];
    }
  }

  lemma SupersededIs(t: Tables, d: Device, dataId: Bytes)
    requires Ordered(t.changes)
    ensures var t' := Superseded(t, d, dataId);
      && (forall c :: c in t'.changes <==> c in t.changes && !(c.device == d && c.dataId == dataId))
      && (forall w :: w in t'.waits <==> w in t.waits && !IsOf(t.changes, w.id, d, dataId))
  {
    RowIdIs(t.changes, d, dataId);
    var old' := RowId(t.changes, d, dataId);
    if old'.Some? {
      DroppedIs(t.changes, old'.value);
      var i :| IsRowOf(t.changes, i, d, dataId);
      forall c | c in t.changes ensures c.id == old'.value <==> c.device == d && c.dataId == dataId {
        var k :| 0 <= k < |t.changes| && t.changes[k] == c;
        assert IsRowOf(t.changes, k, d, dataId) <==> c.device == d && c.dataId == dataId;
      }
      assert t.changes[i] in t.changes;
      forall id ensures IsOf(t.changes, id, d, dataId) <==> id == old'.value {
        if id == old'.value { assert t.changes[i].id == id; }
      }
    } else {
      forall c | c in t.changes ensures !(c.device == d && c.dataId == dataId) {
        var k :| 0 <= k < |t.changes| && t.changes[k] == c;
        assert !IsRowOf(t.changes, k, d, dataId);
      }
    }
  }

  /** `x` is another device of the user of `d`. */
  ghost predicate SharesWith(users: map<Device, User>, d: Device, x: Device)
    requires d in users
  {
    x in users && users[x] == users[d] && x != d
  }

  /** The rows after an upload: those of other data ids or devices, and the new one if the user has
      another device; and each of these devices waits for it. */
  lemma AddedIs(users: map<Device, User>, t: Tables, c: Change)
    requires Ordered(t.changes) && c.device in users
    ensures var t' := Added(users, t, c);
      && (forall x :: x in t'.changes <==>
            (x in t.changes && !(x.device == c.device && x.dataId == c.dataId))
            || (x == c && exists y :: SharesWith(users, c.device, y)))
      && (forall w :: w in t'.waits <==>
            (w in t.waits && !IsOf(t.changes, w.id, c.device, c.dataId))
            || (w.id == c.id && SharesWith(users, c.device, w.device)))
  {
    SupersededIs(t, c.device, c.dataId);
    var t1, others := Superseded(t, c.device, c.dataId), OthersOf(users, c.device);
    assert forall x :: x in others <==> SharesWith(users, c.device, x);
    forall w ensures w in (set x | x in others :: Wait(x, c.id)) <==> w.id == c.id && w.device in others {
      if w.id == c.id { assert w == Wait(w.device, c.id); }
    }
    if y :| SharesWith(users, c.device, y) { assert y in others; }
    if x :| x in others { assert SharesWith(users, c.device, x); }
  }

  /** An upload as one device sees it: its queue loses the change that is replaced, and ends with the
      new one exactly if it is another device of the same user. */
  ghost predicate QueueTakes(users: map<Device, User>, t: Tables, c: Change, t': Tables, x: Device)
    requires c.device in users
  {
    && Ascends(Pending(t'.changes, t'.waits, x))
    && forall id :: id in Pending(t'.changes, t'.waits, x) <==>
         (id in Pending(t.changes, t.waits, x) && !IsOf(t.changes, id, c.device, c.dataId))
         || (id == c.id && SharesWith(users, c.device, x))
  }

  ghost predicate Shared(users: map<Device, User>, t: Tables, c: Change, t': Tables)
    requires c.device in users
  {
    && (forall x :: QueueTakes(users, t, c, t', x))
    && (forall x :: x in t'.changes <==>
          (x in t.changes && !(x.device == c.device && x.dataId == c.dataId))
          || (x == c && exists y :: SharesWith(users, c.device, y)))
  }

  lemma AddedIsTaken(users: map<Device, User>, t: Tables, c: Change, nextId: nat, nextId': nat, x: Device)
    requires References(users.Keys, t.changes, t.waits, nextId) && c.device in users
    requires var t' := Added(users, t, c); References(users.Keys, t'.changes, t'.waits, nextId')
    ensures QueueTakes(users, t, c, Added(users, t, c), x)
  {
    AddedIs(users, t, c);
    QueueIs(users.Keys, t, nextId, x);
    QueueIs(users.Keys, Added(users, t, c), nextId', x);
  }

  lemma AddedIsShared(users: map<Device, User>, t: Tables, c: Change, nextId: nat, nextId': nat)
    requires References(users.Keys, t.changes, t.waits, nextId) && c.device in users
    requires var t' := Added(users, t, c); References(users.Keys, t'.changes, t'.waits, nextId')
    ensures Shared(users, t, c, Added(users, t, c))
  {
    AddedIs(users, t, c);
    forall x ensures QueueTakes(users, t, c, Added(users, t, c), x) {
      AddedIsTaken(users, t, c, nextId, nextId', x);
    }
  }

  /** A device upload leaves what is stored and adds one wait, for the stored change if there is one. */
  ghost predicate ForOne(t: Tables, c: Change, target: Device, t': Tables) {
    var stored := exists y :: y in t.changes && y.device == c.device && y.dataId == c.dataId;
    && (forall x :: x in t'.changes <==> x in t.changes || (x == c && !stored))
    && (forall w :: w in t'.waits <==>
          w in t.waits || (w.device == target && IsOf(t.changes, w.id, c.device, c.dataId))
          || (w == Wait(target, c.id) && !stored))
  }

  lemma AddedForIs(t: Tables, c: Change, target: Device)
    requires Ordered(t.changes)
    ensures ForOne(t, c, target, AddedFor(t, c, target))
  {
    RowIdIs(t.changes, c.device, c.dataId);
    if y :| y in t.changes && y.device == c.device && y.dataId == c.dataId {
      var k :| 0 <= k < |t.changes| && t.changes[k] == y;
      assert IsRowOf(t.changes, k, c.device, c.dataId);
      forall id ensures IsOf(t.changes, id, c.device, c.dataId) <==> id == y.id {
        if z :| z in t.changes && z.id == id && z.device == c.device && z.dataId == c.dataId {
          var j :| 0 <= j < |t.changes| && t.changes[j] == z;
          assert j == k;
        }
      }
    } else {
      forall i ensures !IsRowOf(t.changes, i, c.device, c.dataId) {
        if 0 <= i < |t.changes| { assert t.changes[i] in t.changes; }
      }
    }
  }

  /** An acknowledgement takes one wait, and the change with the last one. */
  lemma CompletedIs(t: Tables, d: Device, id: nat)
    ensures var t' := Completed(t, d, id);
      && (forall w :: w in t'.waits <==> w in t.waits && w != Wait(d, id))
      && (forall c :: c in t'.changes <==>
            c in t.changes && (c.id == id ==> exists w :: w in t.waits && w.id == id && w.device != d))
  {
    DroppedIs(t.changes, id);
    var waits' := t.waits - {Wait(d, id)};
    if w :| w in t.waits && w.id == id && w.device != d { assert w in waits'; }
    if w :| w in waits' && w.id == id { assert w.device != d; }
  }

  lemma WaitsAreOld(devices: set<Device>, changes: seq<Change>, waits: set<Wait>, nextId: nat)
    requires References(devices, changes, waits, nextId)
    ensures forall w :: w in waits ==> w.id < nextId
  {
    forall w | w in waits ensures w.id < nextId {
      var i :| 0 <= i < |changes| && changes[i].id == w.id;
    }
  }

  lemma NotAwaitedYet(devices: set<Device>, changes: seq<Change>, waits: set<Wait>, nextId: nat)
    requires References(devices, changes, waits, nextId)
    ensures !Awaited(waits, nextId)
  {
    WaitsAreOld(devices, changes, waits, nextId);
  }

  /** An acknowledgement removes the change from the queue of its sender and leaves all others. */
  lemma CompletedQueue(t: Tables, e: Device, id: nat, d: Device)
    ensures
      var t' := Completed(t, e, id);
      var q := Pending(t.changes, t.waits, d);
      Pending(t'.changes, t'.waits, d) == if d == e then Removed(q, id) else q
  {
    var waits' := t.waits - {Wait(e, id)};
    PendingAck(t.changes, t.waits, e, id, d);
    if !Awaited(waits', id) {
      PendingDropUnawaited(t.changes, waits', id, d);
    }
  }

  // ---- the invariant

  ghost predicate SoundTables(users: map<Device, User>, t: Tables, quota: map<User, int>, nextId: nat) {
    References(users.Keys, t.changes, t.waits, nextId) && CounterOk(users, t.changes, quota)
  }

  lemma DropKeepsSound(users: map<Device, User>, t: Tables, quota: map<User, int>, nextId: nat, i: nat)
    requires SoundTables(users, t, quota, nextId) && users.Values <= quota.Keys && i < |t.changes|
    ensures
      var c := t.changes[i];
      c.device in users && users[c.device] in quota && quota[users[c.device]] >= |c.data|
      && SoundTables(users, Tables(Dropped(t.changes, c.id), WaitsDropped(t.waits, c.id)),
                     quota[users[c.device] := quota[users[c.device]] - |c.data|], nextId)
  {
    DroppedAt(t.changes, i);
    DropKeepsReferences(users.Keys, t.changes, t.waits, nextId, i);
    DropKeepsCount(users, t.changes, quota, i);
  }

  lemma SoundLater(users: map<Device, User>, t: Tables, quota: map<User, int>, nextId: nat)
    requires SoundTables(users, t, quota, nextId)
    ensures SoundTables(users, t, quota, nextId + 1)
  {}

  lemma AddKeepsSound(users: map<Device, User>, t: Tables, quota: map<User, int>, c: Change)
    requires SoundTables(users, t, quota, c.id) && c.device in users && users[c.device] in quota
    requires forall i :: !IsRowOf(t.changes, i, c.device, c.dataId)
    ensures SoundTables(users, t.(changes := t.changes + [c]),
                        quota[users[c.device] := quota[users[c.device]] + |c.data|], c.id + 1)
  {
    AddKeepsReferences(users.Keys, t.changes, t.waits, c.id, c);
    AddKeepsCount(users, t.changes, quota, c);
  }

  ghost predicate AllAwaited(t: Tables) {
    forall i :: 0 <= i < |t.changes| ==> Awaited(t.waits, t.changes[i].id)
  }

  lemma DropKeepsAwaited(t: Tables, i: nat)
    requires AllAwaited(t) && i < |t.changes| && Ordered(t.changes)
    ensures AllAwaited(Tables(t.changes[..i] + t.changes[i + 1..], WaitsDropped(t.waits, t.changes[i].id)))
  {
    var rest := t.changes[..i] + t.changes[i + 1..];
    forall k | 0 <= k < |rest| ensures Awaited(WaitsDropped(t.waits, t.changes[i].id), rest[k].id) {
      var k' := if k < i then k else k + 1;
      assert rest[k] == t.changes[k'] && Awaited(t.waits, t.changes[k'].id);
      var w :| w in t.waits && w.id == rest[k].id;
      assert w in WaitsDropped(t.waits, t.changes[i].id);
    }
  }

  lemma WaitsKeepReferences(devices: set<Device>, changes: seq<Change>, waits: set<Wait>, nextId: nat, targets: set<Device>, id: nat)
    requires References(devices, changes, waits, nextId) && targets <= devices && HasId(changes, id)
    ensures References(devices, changes, waits + (set x | x in targets :: Wait(x, id)), nextId)
  {}

  /** A new row that somebody waits for. */
  lemma AddKeepsAwaited(t: Tables, c: Change, targets: set<Device>)
    requires AllAwaited(t) && targets != {}
    ensures AllAwaited(Tables(t.changes + [c], t.waits + (set x | x in targets :: Wait(x, c.id))))
  {
    var waits' := t.waits + (set x | x in targets :: Wait(x, c.id));
    var all := t.changes + [c];
    MoreWaits(t, waits');
    forall i | 0 <= i < |all| ensures Awaited(waits', all[i].id) {
      if i < |t.changes| {
        assert Awaited(waits', t.changes[i].id);
      } else {
        var x :| x in targets;
        assert Wait(x, c.id) in waits';
      }
    }
  }

  lemma NewestAwaited(changes: seq<Change>, waits: set<Wait>, targets: set<Device>)
    requires changes != [] && AllAwaited(Tables(changes[..|changes| - 1], waits)) && targets != {}
    ensures AllAwaited(Tables(changes, waits + (set x | x in targets :: Wait(x, changes[|changes| - 1].id))))
  {
    var init, last := changes[..|changes| - 1], changes[|changes| - 1];
    AddKeepsAwaited(Tables(init, waits), last, targets);
    assert init + [last] == changes;
  }

  lemma AddedForKeepsAwaited(t: Tables, c: Change, target: Device)
    requires AllAwaited(t)
    ensures AllAwaited(AddedFor(t, c, target))
  {
    match RowId(t.changes, c.device, c.dataId)
    case None =>
      AddKeepsAwaited(t, c, {target});
      assert (set x | x in {target} :: Wait(x, c.id)) == {Wait(target, c.id)};
    case Some(id) => MoreWaits(t, t.waits + {Wait(target, id)});
  }

  lemma MoreWaits(t: Tables, waits': set<Wait>)
    requires AllAwaited(t) && t.waits <= waits'
    ensures AllAwaited(Tables(t.changes, waits'))
  {
    forall i | 0 <= i < |t.changes| ensures Awaited(waits', t.changes[i].id) {
      assert Awaited(t.waits, t.changes[i].id);
      var w :| w in t.waits && w.id == t.changes[i].id;
      assert w in waits';
    }
  }

  /** The rows that an acknowledgement leaves are all awaited. */
  lemma AckKeepsAwaited(t: Tables, d: Device, id: nat)
    requires AllAwaited(t)
    ensures AllAwaited(Completed(t, d, id))
  {
    var t' := Completed(t, d, id);
    forall i | 0 <= i < |t'.changes| ensures Awaited(t'.waits, t'.changes[i].id) {
      var c := t'.changes[i];
      if !Awaited(t'.waits, id) { DroppedIn(t.changes, id, i); }
      if c.id != id {
        assert Awaited(t.waits, c.id);
        var w :| w in t.waits && w.id == c.id;
        assert w in t'.waits;
      }
    }
  }

  lemma {:induction false} DroppedIn(changes: seq<Change>, id: nat, i: nat)
    requires i < |Dropped(changes, id)|
    ensures var c := Dropped(changes, id)[i]; c.id != id && exists k :: 0 <= k < |changes| && changes[k] == c
  {
    var n := |changes| - 1;
    var rest := Dropped(changes[..n], id);
    if i < |rest| {
      DroppedIn(changes[..n], id, i);
      var k :| 0 <= k < n && changes[..n][k] == rest[i];
      assert changes[k] == rest[i];
    } else {
      assert changes[n] == Dropped(changes, id)[i];
    }
  }

  ghost function WaitsOf(changes: seq<Change>, waits: set<Wait>, d: Device): set<Wait> {
    set w | w in waits && w.device == d && HasId(changes, w.id)
  }

  lemma WaitsOfLast(changes: seq<Change>, waits: set<Wait>, d: Device)
    requires Ordered(changes) && changes != []
    ensures
      var n := |changes| - 1;
      var last, earlier := Wait(d, changes[n].id), WaitsOf(changes[..n], waits, d);
      && last !in earlier
      && WaitsOf(changes, waits, d) == if last in waits then earlier + {last} else earlier
  {
    var n := |changes| - 1;
    var last, earlier := Wait(d, changes[n].id), WaitsOf(changes[..n], waits, d);
    assert !HasId(changes[..n], last.id);
    forall w ensures w in WaitsOf(changes, waits, d) <==> w in earlier || (w == last && w in waits) {
      HasIdSplit(changes, w.id);
    }
  }

  /** The number of rows in devicechanges is the length of the queue. */
  lemma {:induction false} QueueCount(changes: seq<Change>, waits: set<Wait>, d: Device)
    requires Ordered(changes)
    ensures |Pending(changes, waits, d)| == |WaitsOf(changes, waits, d)|
  {
    if changes != [] {
      QueueCount(changes[..|changes| - 1], waits, d);
      WaitsOfLast(changes, waits, d);
    }
  }

  lemma HasIdSplit(changes: seq<Change>, id: nat)
    requires changes != []
    ensures HasId(changes, id) <==> HasId(changes[..|changes| - 1], id) || changes[|changes| - 1].id == id
  {
    var n := |changes| - 1;
    if HasId(changes[..n], id) {
      var k :| 0 <= k < n && changes[..n][k].id == id;
      assert changes[k].id == id;
    }
  }

  /** LIMIT and OFFSET of a query. */
  function Page(rows: seq<nat>, limit: nat, offset: nat): seq<nat> {
    var rest := if offset <= |rows| then rows[offset..] else [];
    if limit <= |rest| then rest[..limit] else rest
  }

  /** What OFFSET skips. */
  function FirstOf(rows: seq<nat>, n: nat): seq<nat> {
    if n <= |rows| then rows[..n] else rows
  }

  lemma PageSnoc(rows: seq<nat>, id: nat, limit: nat, offset: nat)
    ensures Page(rows + [id], limit, offset) ==
            if |rows| < offset || |Page(rows, limit, offset)| >= limit then Page(rows, limit, offset)
            else Page(rows, limit, offset) + [id]
  {
    if offset <= |rows| {
      assert (rows + [id])[offset..] == rows[offset..] + [id];
    }
  }

  /** A page of a queue: what a caller may rely on. */
  lemma PageOfQueue(changes: seq<Change>, waits: set<Wait>, d: Device, limit: nat, offset: nat)
    requires Ordered(changes)
    ensures
      var q := Pending(changes, waits, d);
      var page := Page(q, limit, offset);
      && Ascends(page) && (forall id :: id in page ==> HasId(changes, id) && Wait(d, id) in waits)
      && (forall id, later :: id in q && later in page && id < later ==> id in page || id in FirstOf(q, offset))
  {
    var q := Pending(changes, waits, d);
    var page := Page(q, limit, offset);
    PendingAscends(changes, waits, d);
    PageInOrder(q, limit, offset);
    forall id | id in page ensures HasId(changes, id) && Wait(d, id) in waits {
      PendingIn(changes, waits, d, id);
    }
  }

  lemma PageInOrder(q: seq<nat>, limit: nat, offset: nat)
    requires Ascends(q)
    ensures var page := Page(q, limit, offset);
      && Ascends(page) && (forall id :: id in page ==> id in q)
      && (forall id, later :: id in q && later in page && id < later ==> id in page || id in FirstOf(q, offset))
  {
    var page := Page(q, limit, offset);
    forall id | id in page ensures id in q {
      var i :| 0 <= i < |page| && page[i] == id;
      assert q[offset + i] == id;
    }
    forall id, later | id in q && later in page && id < later ensures id in page || id in FirstOf(q, offset) {
      var i :| 0 <= i < |q| && q[i] == id;
      var j :| 0 <= j < |page| && page[j] == later;
      assert q[offset + j] == later;
      if i >= offset {
        assert page[i - offset] == id;
      } else {
        assert FirstOf(q, offset)[i] == id;
      }
    }
  }

  // ---- the database

  class Database {
    const users: map<Device, User>
    const quotaLimits: map<User, int>
    var quota: map<User, int>
    var changes: seq<Change>
    var waits: set<Wait>
    var nextId: nat

    constructor (users: map<Device, User>, quotaLimits: map<User, int>)
      requires users.Values <= quotaLimits.Keys && forall u :: u in quotaLimits ==> 0 < quotaLimits[u]
      ensures Valid() && this.users == users && this.quotaLimits == quotaLimits && changes == [] && waits == {}
    {
      this.users, this.quotaLimits := users, quotaLimits;
      quota := map u | u in quotaLimits :: 0;
      changes, waits, nextId := [], {}, 1;
    }

    /** The tables are linked and counted, while a transaction is under way. */
    ghost predicate Sound()
      reads this
    {
      users.Values <= quotaLimits.Keys == quota.Keys && SoundTables(users, Abs(), quota, nextId)
    }

    ghost predicate Valid()
      reads this
    {
      IsValid(Abs(), quota, nextId)
    }

    /** The tables are linked, counted and below the limits, and every change is awaited. */
    ghost predicate IsValid(t: Tables, quota: map<User, int>, nextId: nat) {
      && users.Values <= quotaLimits.Keys == quota.Keys
      && SoundTables(users, t, quota, nextId) && BelowLimits(quota) && AllAwaited(t)
    }

    ghost predicate BelowLimits(quota: map<User, int>)
      requires quotaLimits.Keys == quota.Keys
    {
      forall u :: u in quota ==> quota[u] < quotaLimits[u]
    }

    ghost function Abs(): Tables
      reads this
    {
      Tables(changes, waits)
    }

    function Queue(d: Device): seq<nat>
      reads this
    {
      Pending(changes, waits, d)
    }

    method FindRow(d: Device, dataId: Bytes) returns (found: int)
      ensures found == -1 <==> forall i :: !IsRowOf(changes, i, d, dataId)
      ensures found != -1 ==> IsRowOf(changes, found, d, dataId)
    {
      for i := 0 to |changes|
        invariant forall k :: k < i ==> !IsRowOf(changes, k, d, dataId)
      {
        if changes[i].device == d && changes[i].dataId == dataId {
          assert IsRowOf(changes, i, d, dataId);
          return i;
        }
      }
      return -1;
    }

    /** DELETE of one row of datachanges, with the cascade and the trigger downquota; its clamp
        never takes effect. */
    method DeleteRow(i: nat)
      requires Sound() && i < |changes|
      modifies this`quota, this`changes, this`waits
      ensures Sound()
      ensures changes == Dropped(old(changes), old(changes[i].id)) && |changes| == old(|changes|) - 1
      ensures waits == WaitsDropped(old(waits), old(changes[i].id))
      ensures var c := old(changes[i]); quota == old(quota)[users[c.device] := old(quota)[users[c.device]] - |c.data|]
    {
      var c := changes[i];
      DropKeepsSound(users, Abs(), quota, nextId, i);
      DroppedAt(changes, i);
      var u := users[c.device];
      var lowered := quota[u] - |c.data|;
      changes, waits, quota :=
        changes[..i] + changes[i + 1..], WaitsDropped(waits, c.id), quota[u := if lowered > 0 then lowered else 0];
    }

    /** INSERT into datachanges, with the trigger upquota and the check on the quota; a serial
        id is used up even if the row is rejected. */
    method InsertRow(d: Device, dataId: Bytes, keyIndex: nat, salt: Bytes, data: Bytes) returns (outcome: Outcome, id: nat)
      requires Sound() && forall i :: !IsRowOf(changes, i, d, dataId)
      modifies this`quota, this`changes, this`nextId
      ensures Sound() && nextId == old(nextId) + 1 && id == old(nextId)
      ensures outcome == Failed <==> d !in users
      ensures outcome == QuotaHit <==> d in users && old(quota)[users[d]] + |data| >= quotaLimits[users[d]]
      ensures outcome == Done ==> changes == old(changes) + [Change(id, d, dataId, keyIndex, salt, data)]
      ensures outcome == Done ==> quota == old(quota)[users[d] := old(quota)[users[d]] + |data|]
      ensures outcome != Done ==> changes == old(changes) && quota == old(quota)
    {
      id := nextId;
      SoundLater(users, Abs(), quota, id);
      if d !in users {
        nextId := nextId + 1;
        return Failed, id;
      }
      var u := users[d];
      assert u in users.Values;
      var raised := quota[u] + |data|;
      if raised >= quotaLimits[u] {
        nextId := nextId + 1;
        return QuotaHit, id;
      }
      var c := Change(id, d, dataId, keyIndex, salt, data);
      AddKeepsSound(users, Abs(), quota, c);
      changes, quota, nextId := changes + [c], quota[u := raised], nextId + 1;
      outcome := Done;
    }

    // ---- the transactions

    ghost predicate QuotaExceeded(d: Device, stored: seq<Change>, data: Bytes)
      reads this
    {
      d in users && users[d] in quotaLimits && Stored(users, stored, users[d]) + |data| >= quotaLimits[users[d]]
    }

    /** DELETE of the device's earlier change of the same object, if there is one. */
    method DeleteOld(d: Device, dataId: Bytes)
      requires Valid()
      modifies this`quota, this`changes, this`waits
      ensures Valid() && Abs() == Superseded(old(Abs()), d, dataId)
      ensures forall i :: !IsRowOf(changes, i, d, dataId)
    {
      RowIdIs(changes, d, dataId);
      var i := FindRow(d, dataId);
      if i != -1 {
        DroppedAt(changes, i);
        DropKeepsAwaited(Abs(), i);
        NoOtherRow(changes, i, d, dataId);
        DeleteRow(i);
      }
    }

    /** INSERT into devicechanges of a row for each target. */
    method AddWaits(targets: set<Device>, id: nat)
      requires Sound() && targets <= users.Keys && HasId(changes, id)
      modifies this`waits
      ensures Sound() && waits == old(waits) + set x | x in targets :: Wait(x, id)
    {
      WaitsKeepReferences(users.Keys, changes, waits, nextId, targets, id);
      waits := waits + set x | x in targets :: Wait(x, id);
    }

    /** DELETE of the newest row, for which nobody waits. */
    method DeleteNewest()
      requires Sound() && changes != []
      requires !Awaited(waits, changes[|changes| - 1].id)
      modifies this`quota, this`changes, this`waits
      ensures Sound() && changes == old(changes[..|changes| - 1]) && waits == old(waits)
      ensures var c := old(changes[|changes| - 1]); quota == old(quota)[users[c.device] := old(quota)[users[c.device]] - |c.data|]
    {
      DroppedAt(changes, |changes| - 1);
      DeleteRow(|changes| - 1);
    }

    /** ROLLBACK; only the serial is not reset. */
    method Rollback(changes0: seq<Change>, waits0: set<Wait>, quota0: map<User, int>)
      requires IsValid(Tables(changes0, waits0), quota0, nextId)
      modifies this`quota, this`changes, this`waits
      ensures Valid() && Abs() == Tables(changes0, waits0) && quota == quota0
    {
      changes, waits, quota := changes0, waits0, quota0;
    }

    /** Registers the newest change with the other devices of the user, and deletes it again if
        there are none. */
    method Distribute(d: Device, id: nat)
      requires Sound() && BelowLimits(quota) && changes != [] && d in users
      requires var n := |changes| - 1;
        changes[n].id == id && AllAwaited(Tables(changes[..n], waits)) && !Awaited(waits, id)
      modifies this`quota, this`changes, this`waits
      ensures Valid()
      ensures var n, others := old(|changes| - 1), OthersOf(users, d);
        Abs() == if others == {} then Tables(old(changes[..n]), old(waits))
                 else Tables(old(changes), old(waits) + set x | x in others :: Wait(x, id))
    {
      ghost var n := |changes| - 1;
      ghost var changes0, waits0 := changes, waits;
      var others := OthersOf(users, d);
      AddWaits(others, id);
      if others == {} {
        assert waits == waits0;
        DeleteNewest();
      } else {
        NewestAwaited(changes0, waits0, others);
      }
    }

    /** The part of an upload after the deletion of its predecessor. */
    method InsertAndDistribute(d: Device, dataId: Bytes, keyIndex: nat, salt: Bytes, data: Bytes) returns (outcome: Outcome)
      requires Valid() && forall i :: !IsRowOf(changes, i, d, dataId)
      modifies this
      ensures nextId == old(nextId) + 1
      ensures outcome == Failed <==> d !in users
      ensures outcome == QuotaHit <==> QuotaExceeded(d, old(changes), data)
      ensures outcome == Done ==> Valid()
      ensures outcome == Done ==>
        var others := OthersOf(users, d);
        Abs() == if others == {} then old(Abs())
                 else Tables(old(changes) + [Change(old(nextId), d, dataId, keyIndex, salt, data)],
                             old(waits) + set x | x in others :: Wait(x, old(nextId)))
    {
      NotAwaitedYet(users.Keys, changes, waits, nextId);
      ghost var t := Abs();
      var id;
      outcome, id := InsertRow(d, dataId, keyIndex, salt, data);
      if outcome == Done {
        assert Tables(changes[..|changes| - 1], waits) == t;
        Distribute(d, id);
      }
    }

    lemma ValidLater(t: Tables, quota: map<User, int>, nextId: nat)
      requires IsValid(t, quota, nextId)
      ensures IsValid(t, quota, nextId + 1)
    {}

    method AddChange(d: Device, dataId: Bytes, keyIndex: nat, salt: Bytes, data: Bytes) returns (outcome: Outcome)
      requires Valid()
      modifies this
      ensures Valid() && nextId == old(nextId) + 1
      ensures outcome == Failed <==> d !in users
      ensures outcome == QuotaHit <==> QuotaExceeded(d, Superseded(old(Abs()), d, dataId).changes, data)
      ensures outcome == Done ==> Abs() == Added(users, old(Abs()), Change(old(nextId), d, dataId, keyIndex, salt, data))
      ensures outcome == Done ==>
        d in users && Shared(users, old(Abs()), Change(old(nextId), d, dataId, keyIndex, salt, data), Abs())
      ensures outcome != Done ==> Abs() == old(Abs()) && quota == old(quota)
    {
      ghost var t, c := Abs(), Change(nextId, d, dataId, keyIndex, salt, data);
      var changes0, waits0, quota0 := changes, waits, quota;
      ValidLater(Abs(), quota, nextId);
      DeleteOld(d, dataId);
      outcome := InsertAndDistribute(d, dataId, keyIndex, salt, data);
      if outcome != Done {
        Rollback(changes0, waits0, quota0);
      } else {
        AddedIsShared(users, t, c, c.id, nextId);
      }
    }

    /** INSERT ON CONFLICT DO NOTHING, and the id of the row in either case. */
    method EnsureRow(d: Device, dataId: Bytes, keyIndex: nat, salt: Bytes, data: Bytes, ghost target: Device)
        returns (outcome: Outcome, id: nat)
      requires Valid()
      modifies this`quota, this`changes, this`nextId
      ensures Sound() && nextId == old(nextId) + 1
      ensures outcome == QuotaHit <==>
        RowId(old(changes), d, dataId).None? && QuotaExceeded(d, old(changes), data)
      ensures outcome == Failed <==> d !in users
      ensures outcome == Done ==> BelowLimits(quota) && HasId(changes, id)
      ensures outcome == Done ==> Tables(changes, waits + {Wait(target, id)})
                                  == AddedFor(old(Abs()), Change(old(nextId), d, dataId, keyIndex, salt, data), target)
      ensures outcome == Done ==> AllAwaited(Tables(changes, waits + {Wait(target, id)}))
    {
      AddedForKeepsAwaited(Abs(), Change(nextId, d, dataId, keyIndex, salt, data), target);
      RowIdIs(changes, d, dataId);
      ValidLater(Abs(), quota, nextId);
      var i := FindRow(d, dataId);
      if i == -1 {
        ghost var n := |changes|;
        outcome, id := InsertRow(d, dataId, keyIndex, salt, data);
        assert outcome == Done ==> changes[n].id == id;
      } else {
        outcome, id, nextId := Done, changes[i].id, nextId + 1;
      }
    }

    /** INSERT of one row into devicechanges, if it is not there. */
    method AwaitBy(target: Device, id: nat)
      requires Sound() && BelowLimits(quota) && target in users && HasId(changes, id)
      requires AllAwaited(Tables(changes, waits + {Wait(target, id)}))
      modifies this`waits
      ensures Valid() && waits == old(waits) + {Wait(target, id)}
    {
      AddWaits({target}, id);
      assert (set x | x in {target} :: Wait(x, id)) == {Wait(target, id)};
    }

    /** The upload for one device. */
    method AddDeviceChange(d: Device, target: Device, dataId: Bytes, keyIndex: nat, salt: Bytes, data: Bytes) returns (outcome: Outcome)
      requires Valid()
      modifies this
      ensures Valid() && nextId == old(nextId) + 1
      ensures outcome == QuotaHit <==>
        RowId(old(changes), d, dataId).None? && QuotaExceeded(d, old(changes), data)
      ensures outcome == Failed <==> d !in users || (target !in users && outcome != QuotaHit)
      ensures outcome == Done ==>
        Abs() == AddedFor(old(Abs()), Change(old(nextId), d, dataId, keyIndex, salt, data), target)
      ensures outcome == Done ==> ForOne(old(Abs()), Change(old(nextId), d, dataId, keyIndex, salt, data), target, Abs())
      ensures outcome != Done ==> Abs() == old(Abs()) && quota == old(quota)
    {
      ghost var t, c := Abs(), Change(nextId, d, dataId, keyIndex, salt, data);
      var changes0, waits0, quota0 := changes, waits, quota;
      ValidLater(Abs(), quota, nextId);
      var id;
      outcome, id := EnsureRow(d, dataId, keyIndex, salt, data, target);
      if outcome == Done && target !in users {
        outcome := Failed;
      }
      if outcome == Done {
        AwaitBy(target, id);
        AddedForIs(t, c, target);
      } else {
        Rollback(changes0, waits0, quota0);
      }
    }

    method FindId(id: nat) returns (found: int)
      ensures found == -1 ==> !HasId(changes, id)
      ensures found != -1 ==> 0 <= found < |changes| && changes[found].id == id
    {
      for i := 0 to |changes|
        invariant forall k :: 0 <= k < i ==> changes[k].id != id
      {
        if changes[i].id == id {
          return i;
        }
      }
      return -1;
    }

    /** DELETE of a change for which nobody waits. */
    method DeleteUnawaited(id: nat)
      requires Sound() && BelowLimits(quota) && !Awaited(waits, id)
      modifies this`quota, this`changes, this`waits
      ensures Sound() && BelowLimits(quota)
      ensures changes == Dropped(old(changes), id) && waits == old(waits)
    {
      var i := FindId(id);
      if i != -1 {
        DeleteRow(i);
      } else {
        DroppedNothing(changes, id);
      }
    }

    /** An acknowledgement; the last one deletes the change itself. */
    method CompleteChange(d: Device, id: nat)
      requires Valid()
      modifies this`quota, this`changes, this`waits
      ensures Valid() && Abs() == Completed(old(Abs()), d, id)
      ensures forall w :: w in waits <==> w in old(waits) && w != Wait(d, id)
      ensures forall c :: c in changes <==>
        c in old(changes) && (c.id == id ==> exists w :: w in old(waits) && w.id == id && w.device != d)
    {
      CompletedIs(Abs(), d, id);
      AckKeepsAwaited(Abs(), d, id);
      waits := waits - {Wait(d, id)};
      if !exists w :: w in waits && w.id == id {
        DeleteUnawaited(id);
      }
    }

    method ChangeCount(d: Device) returns (count: nat)
      requires Valid()
      ensures count == |Queue(d)|
    {
      QueueCount(changes, waits, d);
      assert (set w | w in waits && w.device == d) == WaitsOf(changes, waits, d);
      count := |set w | w in waits && w.device == d|;
    }

    /** SELECT of the queue of a device, ordered by id, with LIMIT and OFFSET: ascending ids of
        changes that wait for the device, as many as there are up to the limit, and the smallest
        ones but for those skipped. */
    method LoadNextChanges(d: Device, count: nat, skip: nat) returns (ids: seq<nat>)
      requires Valid()
      ensures Ascends(ids) && forall id :: id in ids ==> HasId(changes, id) && Wait(d, id) in waits
      ensures |ids| == if |Queue(d)| <= skip then 0 else if |Queue(d)| - skip <= count then |Queue(d)| - skip else count
      ensures forall id, later :: id in Queue(d) && later in ids && id < later ==> id in ids || id in FirstOf(Queue(d), skip)
      ensures ids == Page(Queue(d), count, skip)
    {
      ids := [];
      var skipped := 0;
      for i := 0 to |changes|
        invariant var q := Pending(changes[..i], waits, d);
          skipped == (if |q| <= skip then |q| else skip) && ids == Page(q, count, skip)
      {
        var id := changes[i].id;
        assert changes[..i + 1] == changes[..i] + [changes[i]];
        PendingSnoc(changes[..i], changes[i], waits, d);
        if Wait(d, id) in waits {
          PageSnoc(Pending(changes[..i], waits, d), id, count, skip);
          if skipped < skip {
            skipped := skipped + 1;
          } else if |ids| < count {
            ids := ids + [id];
          }
        }
      }
      assert changes[..|changes|] == changes;
      PageOfQueue(changes, waits, d, count, skip);
    }
  }
}
