/** Runs of the server's transactions on the tables: what is conserved over any sequence of
    uploads, device uploads and acknowledgements. */
module ServerRuns {
  import opened ByteArrays
  import opened Rows
  import opened ServerDb

  datatype Account = Account(users: map<Device, User>, limits: map<User, int>)

  datatype Upload = Upload(device: Device, dataId: Bytes, keyIndex: nat, salt: Bytes, data: Bytes)

  datatype Transaction =
    | Add(u: Upload)
    | AddFor(u: Upload, target: Device)
    | Complete(device: Device, id: nat)

  datatype Server = Server(tables: Tables, nextId: nat)

  const NOTHING := Server(Tables([], {}), 1)

  function ChangeOf(u: Upload, id: nat): Change {
    Change(id, u.device, u.dataId, u.keyIndex, u.salt, u.data)
  }

  /** The upload does not fit beside what would stay stored. */
  predicate TooMuch(a: Account, stored: seq<Change>, u: Upload) {
    u.device in a.users && a.users[u.device] in a.limits
    && Stored(a.users, stored, a.users[u.device]) + |u.data| >= a.limits[a.users[u.device]]
  }

  /** What `Database` does in one transaction, refused and failed ones included. */
  ghost function Apply(a: Account, s: Server, x: Transaction): Server {
    match x
    case Add(u) =>
      if u.device !in a.users || TooMuch(a, Superseded(s.tables, u.device, u.dataId).changes, u) then
        s.(nextId := s.nextId + 1)
      else Server(Added(a.users, s.tables, ChangeOf(u, s.nextId)), s.nextId + 1)
    case AddFor(u, target) =>
      if u.device !in a.users || target !in a.users
         || (RowId(s.tables.changes, u.device, u.dataId).None? && TooMuch(a, s.tables.changes, u)) then
        s.(nextId := s.nextId + 1)
      else Server(AddedFor(s.tables, ChangeOf(u, s.nextId), target), s.nextId + 1)
    case Complete(d, id) => s.(tables := Completed(s.tables, d, id))
  }

  ghost function After(a: Account, s: Server, run: seq<Transaction>): Server
    decreases |run|
  {
    if run == [] then s else After(a, Apply(a, s, run[0]), run[1..])
  }

  lemma {:induction false} AfterSnoc(a: Account, s: Server, run: seq<Transaction>, x: Transaction)
    ensures After(a, s, run + [x]) == Apply(a, After(a, s, run), x)
    decreases |run|
  {
    if run == [] {
      assert run + [x] == [x] && [x][1..] == [];
    } else {
      assert (run + [x])[1..] == run[1..] + [x];
      AfterSnoc(a, Apply(a, s, run[0]), run[1..], x);
    }
  }

  // ---- the invariant

  ghost predicate AccountOk(a: Account) {
    a.users.Values <= a.limits.Keys && forall u :: u in a.limits ==> 0 < a.limits[u]
  }

  ghost predicate WithinLimits(a: Account, changes: seq<Change>) {
    forall u :: u in a.limits ==> Stored(a.users, changes, u) < a.limits[u]
  }

  ghost predicate ServerOk(a: Account, s: Server) {
    && References(a.users.Keys, s.tables.changes, s.tables.waits, s.nextId)
    && AllAwaited(s.tables) && WithinLimits(a, s.tables.changes)
  }

  lemma DropKeepsOk(a: Account, s: Server, i: nat)
    requires ServerOk(a, s) && i < |s.tables.changes|
    ensures var id := s.tables.changes[i].id;
      ServerOk(a, s.(tables := Tables(Dropped(s.tables.changes, id), WaitsDropped(s.tables.waits, id))))
  {
    var t := s.tables;
    DroppedAt(t.changes, i);
    DropKeepsReferences(a.users.Keys, t.changes, t.waits, s.nextId, i);
    DropKeepsAwaited(t, i);
    forall u | u in a.limits ensures Stored(a.users, Dropped(t.changes, t.changes[i].id), u) < a.limits[u] {
      StoredWithout(a.users, t.changes, i, u);
    }
  }

  lemma SupersededKeepsOk(a: Account, s: Server, d: Device, dataId: Bytes)
    requires ServerOk(a, s)
    ensures ServerOk(a, s.(tables := Superseded(s.tables, d, dataId)))
    ensures var rest := Superseded(s.tables, d, dataId).changes; forall k :: !IsRowOf(rest, k, d, dataId)
  {
    var changes := s.tables.changes;
    RowIdIs(changes, d, dataId);
    if RowId(changes, d, dataId).Some? {
      var i :| IsRowOf(changes, i, d, dataId);
      DropKeepsOk(a, s, i);
      NoOtherRow(changes, i, d, dataId);
      assert Superseded(s.tables, d, dataId).changes == Dropped(changes, changes[i].id);
    } else {
      assert Superseded(s.tables, d, dataId).changes == changes;
    }
  }

  lemma AppendKeepsOk(a: Account, s: Server, c: Change, targets: set<Device>)
    requires ServerOk(a, s) && c.id == s.nextId && c.device in a.users && targets != {} && targets <= a.users.Keys
    requires forall k :: !IsRowOf(s.tables.changes, k, c.device, c.dataId)
    requires a.users[c.device] in a.limits
    requires Stored(a.users, s.tables.changes, a.users[c.device]) + |c.data| < a.limits[a.users[c.device]]
    ensures ServerOk(a, Server(Tables(s.tables.changes + [c], s.tables.waits + set x | x in targets :: Wait(x, c.id)), c.id + 1))
  {
    var t := s.tables;
    var all := t.changes + [c];
    AddKeepsReferences(a.users.Keys, t.changes, t.waits, s.nextId, c);
    assert all[|t.changes|].id == c.id;
    WaitsKeepReferences(a.users.Keys, all, t.waits, c.id + 1, targets, c.id);
    AddKeepsAwaited(t, c, targets);
    assert all[..|t.changes|] == t.changes;
  }

  lemma HasLimit(a: Account, d: Device)
    requires AccountOk(a) && d in a.users
    ensures a.users[d] in a.limits
  {
    assert a.users[d] in a.users.Values;
  }

  lemma RefusedKeepsOk(a: Account, s: Server)
    requires ServerOk(a, s)
    ensures ServerOk(a, s.(nextId := s.nextId + 1))
  {}

  /** An accepted upload; with no other device nothing is stored. */
  lemma AddedKeepsOk(a: Account, s: Server, u: Upload) returns (s': Server)
    requires AccountOk(a) && ServerOk(a, s) && u.device in a.users
    requires !TooMuch(a, Superseded(s.tables, u.device, u.dataId).changes, u)
    ensures s' == Server(Added(a.users, s.tables, ChangeOf(u, s.nextId)), s.nextId + 1) && ServerOk(a, s')
  {
    HasLimit(a, u.device);
    SupersededKeepsOk(a, s, u.device, u.dataId);
    var s1 := s.(tables := Superseded(s.tables, u.device, u.dataId));
    if OthersOf(a.users, u.device) != {} {
      AppendKeepsOk(a, s1, ChangeOf(u, s.nextId), OthersOf(a.users, u.device));
    } else {
      RefusedKeepsOk(a, s1);
    }
    s' := Server(Added(a.users, s.tables, ChangeOf(u, s.nextId)), s.nextId + 1);
  }

  lemma AddKeepsOk(a: Account, s: Server, u: Upload) returns (s': Server)
    requires AccountOk(a) && ServerOk(a, s)
    ensures s' == Apply(a, s, Add(u)) && ServerOk(a, s')
  {
    if u.device !in a.users || TooMuch(a, Superseded(s.tables, u.device, u.dataId).changes, u) {
      RefusedKeepsOk(a, s);
      s' := s.(nextId := s.nextId + 1);
    } else {
      s' := AddedKeepsOk(a, s, u);
    }
  }

  lemma WaitKeepsOk(a: Account, s: Server, target: Device, id: nat)
    requires ServerOk(a, s) && target in a.users && HasId(s.tables.changes, id)
    ensures ServerOk(a, Server(Tables(s.tables.changes, s.tables.waits + {Wait(target, id)}), s.nextId + 1))
  {
    var t := s.tables;
    WaitsKeepReferences(a.users.Keys, t.changes, t.waits, s.nextId, {target}, id);
    SingleWait(t.waits, target, id);
    MoreWaits(t, t.waits + {Wait(target, id)});
  }

  /** A row that is there already, and one more device that waits for it. */
  lemma StoredForKeepsOk(a: Account, s: Server, c: Change, target: Device)
    requires ServerOk(a, s) && target in a.users && RowId(s.tables.changes, c.device, c.dataId).Some?
    ensures ServerOk(a, Server(AddedFor(s.tables, c, target), s.nextId + 1))
  {
    RowIdIs(s.tables.changes, c.device, c.dataId);
    WaitKeepsOk(a, s, target, RowId(s.tables.changes, c.device, c.dataId).value);
  }

  /** A new row that one device waits for. */
  lemma AppendForKeepsOk(a: Account, s: Server, u: Upload, target: Device) returns (s': Server)
    requires AccountOk(a) && ServerOk(a, s) && u.device in a.users && target in a.users
    requires !TooMuch(a, s.tables.changes, u) && RowId(s.tables.changes, u.device, u.dataId).None?
    ensures s' == Server(AddedFor(s.tables, ChangeOf(u, s.nextId), target), s.nextId + 1) && ServerOk(a, s')
  {
    var t, c := s.tables, ChangeOf(u, s.nextId);
    s' := Server(Tables(t.changes + [c], t.waits + set x | x in {target} :: Wait(x, c.id)), c.id + 1);
    HasLimit(a, u.device);
    RowIdIs(t.changes, u.device, u.dataId);
    SingleWait(t.waits, target, c.id);
    AppendKeepsOk(a, s, c, {target});
  }

  lemma SingleWait(waits: set<Wait>, target: Device, id: nat)
    ensures waits + (set x | x in {target} :: Wait(x, id)) == waits + {Wait(target, id)}
  {}

  lemma AddForKeepsOk(a: Account, s: Server, u: Upload, target: Device) returns (s': Server)
    requires AccountOk(a) && ServerOk(a, s)
    ensures s' == Apply(a, s, AddFor(u, target)) && ServerOk(a, s')
  {
    RefusedKeepsOk(a, s);
    s' := s.(nextId := s.nextId + 1);
    if u.device in a.users && target in a.users {
      if RowId(s.tables.changes, u.device, u.dataId).Some? {
        StoredForKeepsOk(a, s, ChangeOf(u, s.nextId), target);
        s' := Server(AddedFor(s.tables, ChangeOf(u, s.nextId), target), s.nextId + 1);
      } else if !TooMuch(a, s.tables.changes, u) {
        s' := AppendForKeepsOk(a, s, u, target);
      }
    }
  }

  lemma FewerWaits(devices: set<Device>, changes: seq<Change>, waits: set<Wait>, waits': set<Wait>, nextId: nat)
    requires References(devices, changes, waits, nextId) && waits' <= waits
    ensures References(devices, changes, waits', nextId)
  {}

  /** Deleting a change for which nobody waits. */
  lemma DropUnawaited(a: Account, changes: seq<Change>, waits: set<Wait>, nextId: nat, id: nat)
    requires References(a.users.Keys, changes, waits, nextId) && WithinLimits(a, changes) && !Awaited(waits, id)
    ensures References(a.users.Keys, Dropped(changes, id), waits, nextId) && WithinLimits(a, Dropped(changes, id))
  {
    if HasId(changes, id) {
      var i :| 0 <= i < |changes| && changes[i].id == id;
      DroppedAt(changes, i);
      DropKeepsReferences(a.users.Keys, changes, waits, nextId, i);
      assert WaitsDropped(waits, id) == waits;
      forall u | u in a.limits ensures Stored(a.users, Dropped(changes, id), u) < a.limits[u] {
        StoredWithout(a.users, changes, i, u);
      }
    } else {
      DroppedNothing(changes, id);
    }
  }

  lemma CompleteKeepsOk(a: Account, s: Server, d: Device, id: nat)
    requires ServerOk(a, s)
    ensures ServerOk(a, Apply(a, s, Complete(d, id)))
  {
    var t, waits' := s.tables, s.tables.waits - {Wait(d, id)};
    AckKeepsAwaited(t, d, id);
    FewerWaits(a.users.Keys, t.changes, t.waits, waits', s.nextId);
    if !Awaited(waits', id) {
      DropUnawaited(a, t.changes, waits', s.nextId, id);
    }
  }

  lemma {:induction false} RunKeepsOk(a: Account, s: Server, run: seq<Transaction>)
    requires AccountOk(a) && ServerOk(a, s)
    ensures ServerOk(a, After(a, s, run))
    decreases |run|
  {
    if run != [] {
      match run[0] {
        case Add(u) => var _ := AddKeepsOk(a, s, u);
        case AddFor(u, target) => var _ := AddForKeepsOk(a, s, u, target);
        case Complete(d, id) => CompleteKeepsOk(a, s, d, id);
      }
      RunKeepsOk(a, Apply(a, s, run[0]), run[1..]);
    }
  }

  /** After any run: nobody stores the limit or more, a device has one change for each object at
      most, and every stored change has a device waiting for it, and every wait its change. */
  lemma StoreIsBounded(a: Account, run: seq<Transaction>, u: User)
    requires AccountOk(a) && u in a.limits
    ensures
      var t := After(a, NOTHING, run).tables;
      && Stored(a.users, t.changes, u) < a.limits[u] && Ordered(t.changes)
      && (forall i :: 0 <= i < |t.changes| ==> Awaited(t.waits, t.changes[i].id))
      && (forall w :: w in t.waits ==> HasId(t.changes, w.id))
  {
    RunKeepsOk(a, NOTHING, run);
  }

  // ---- whose changes a device waits for

  /** Every wait is by another device of the user who uploaded the change. */
  ghost predicate Owned(a: Account, t: Tables) {
    forall w, c :: w in t.waits && c in t.changes && w.id == c.id ==>
      c.device in a.users && SharesWith(a.users, c.device, w.device)
  }

  /** The transaction is no accepted device upload, or one for another device of the same user; the
      server does not test the target of a device upload. */
  ghost predicate Fair(a: Account, s: Server, x: Transaction) {
    x.AddFor? ==>
      || x.u.device !in a.users || x.target !in a.users || SharesWith(a.users, x.u.device, x.target)
      || (TooMuch(a, s.tables.changes, x.u)
          && forall c :: c in s.tables.changes ==> c.device != x.u.device || c.dataId != x.u.dataId)
  }

  ghost predicate AllFair(a: Account, s: Server, run: seq<Transaction>)
    decreases |run|
  {
    run == [] || (Fair(a, s, run[0]) && AllFair(a, Apply(a, s, run[0]), run[1..]))
  }

  ghost predicate OwnedThroughout(a: Account, s: Server, run: seq<Transaction>)
    decreases |run|
  {
    Owned(a, s.tables) && (run == [] || OwnedThroughout(a, Apply(a, s, run[0]), run[1..]))
  }

  lemma ChangesAreOld(a: Account, s: Server)
    requires ServerOk(a, s)
    ensures forall c :: c in s.tables.changes ==> c.id < s.nextId && c.device in a.users
  {}

  lemma AddKeepsOwned(a: Account, s: Server, u: Upload)
    requires ServerOk(a, s) && Owned(a, s.tables)
    ensures Owned(a, Apply(a, s, Add(u)).tables)
  {
    if u.device in a.users {
      AddedIs(a.users, s.tables, ChangeOf(u, s.nextId));
      WaitsAreOld(a.users.Keys, s.tables.changes, s.tables.waits, s.nextId);
      ChangesAreOld(a, s);
    }
  }

  lemma CompleteKeepsOwned(a: Account, s: Server, d: Device, id: nat)
    requires Owned(a, s.tables)
    ensures Owned(a, Apply(a, s, Complete(d, id)).tables)
  {
    CompletedIs(s.tables, d, id);
  }

  lemma OneMoreWait(a: Account, changes: seq<Change>, waits: set<Wait>, x: Change, target: Device)
    requires Owned(a, Tables(changes, waits)) && x in changes && x.device in a.users
    requires forall y :: y in changes && y.id == x.id ==> y == x
    ensures Owned(a, Tables(changes, waits + {Wait(target, x.id)})) <==> SharesWith(a.users, x.device, target)
  {
    assert Wait(target, x.id) in waits + {Wait(target, x.id)};
  }

  /** A device upload that is accepted makes its target wait for a change of its sender. */
  lemma AddedForOwnedIff(a: Account, s: Server, c: Change, target: Device)
    requires ServerOk(a, s) && Owned(a, s.tables) && c.id == s.nextId && c.device in a.users
    ensures Owned(a, AddedFor(s.tables, c, target)) <==> SharesWith(a.users, c.device, target)
  {
    var changes, waits := s.tables.changes, s.tables.waits;
    RowIdIs(changes, c.device, c.dataId);
    if i :| IsRowOf(changes, i, c.device, c.dataId) {
      OneMoreWait(a, changes, waits, changes[i], target);
    } else {
      WaitsAreOld(a.users.Keys, changes, waits, s.nextId);
      ChangesAreOld(a, s);
      assert Owned(a, Tables(changes + [c], waits));
      OneMoreWait(a, changes + [c], waits, c, target);
    }
  }

  lemma AddForOwnedIff(a: Account, s: Server, u: Upload, target: Device)
    requires ServerOk(a, s) && Owned(a, s.tables)
    ensures Owned(a, Apply(a, s, AddFor(u, target)).tables) <==> Fair(a, s, AddFor(u, target))
  {
    var changes := s.tables.changes;
    RowIdIs(changes, u.device, u.dataId);
    if c :| c in changes && c.device == u.device && c.dataId == u.dataId {
      var i :| 0 <= i < |changes| && changes[i] == c;
      assert IsRowOf(changes, i, u.device, u.dataId);
    } else {
      forall i ensures !IsRowOf(changes, i, u.device, u.dataId) {
        if 0 <= i < |changes| { assert changes[i] in changes; }
      }
    }
    if u.device in a.users {
      AddedForOwnedIff(a, s, ChangeOf(u, s.nextId), target);
    }
  }

  lemma StepOwnedIff(a: Account, s: Server, x: Transaction)
    requires ServerOk(a, s) && Owned(a, s.tables)
    ensures Owned(a, Apply(a, s, x).tables) <==> Fair(a, s, x)
  {
    match x
    case Add(u) => AddKeepsOwned(a, s, u);
    case AddFor(u, target) => AddForOwnedIff(a, s, u, target);
    case Complete(d, id) => CompleteKeepsOwned(a, s, d, id);
  }

  /** Nobody ever waits for a change of a stranger or for an own one exactly if no device upload is
      accepted for such a target. */
  lemma {:induction false} OwnedIff(a: Account, s: Server, run: seq<Transaction>)
    requires AccountOk(a) && ServerOk(a, s) && Owned(a, s.tables)
    ensures OwnedThroughout(a, s, run) <==> AllFair(a, s, run)
    decreases |run|
  {
    if run != [] {
      var s' := Apply(a, s, run[0]);
      StepOwnedIff(a, s, run[0]);
      RunKeepsOk(a, s, run[..1]);
      assert After(a, s, run[..1]) == s' by { assert run[..1][1..] == []; }
      if Owned(a, s'.tables) { OwnedIff(a, s', run[1..]); }
    }
  }

  /** In any run of uploads and acknowledgements each device waits for changes of the other devices
      of its user only. */
  lemma {:induction false} UploadsStayOwned(a: Account, s: Server, run: seq<Transaction>)
    requires AccountOk(a) && ServerOk(a, s) && Owned(a, s.tables)
    requires forall i :: 0 <= i < |run| ==> !run[i].AddFor?
    ensures Owned(a, After(a, s, run).tables)
    decreases |run|
  {
    if run != [] {
      StepOwnedIff(a, s, run[0]);
      RunKeepsOk(a, s, run[..1]);
      assert After(a, s, run[..1]) == Apply(a, s, run[0]) by { assert run[..1][1..] == []; }
      UploadsStayOwned(a, Apply(a, s, run[0]), run[1..]);
    }
  }

  // ---- the transactions of the database are these steps

  ghost function ServerOf(db: Database): Server
    reads db
  {
    Server(db.Abs(), db.nextId)
  }

  method Perform(db: Database, x: Transaction)
    requires db.Valid()
    modifies db
    ensures db.Valid() && ServerOf(db) == Apply(Account(db.users, db.quotaLimits), old(ServerOf(db)), x)
  {
    match x
    case Add(u) => var _ := db.AddChange(u.device, u.dataId, u.keyIndex, u.salt, u.data);
    case AddFor(u, target) => var _ := db.AddDeviceChange(u.device, target, u.dataId, u.keyIndex, u.salt, u.data);
    case Complete(d, id) => db.CompleteChange(d, id);
  }
}
