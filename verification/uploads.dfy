/** The upload scheduler of a device and the state of its engine: which changes are uploaded
    next, and when the engine says that everything is synchronized. */
module Uploads {
  import opened Collections
  import opened Rows
  import opened LocalStores
  import opened SyncControllers

  type DeviceId = string

  /** An upload for all devices, or for a single one that joined later. */
  datatype UploadKey = UploadKey(key: ObjectKey, device: Option<DeviceId>)

  /** What tells active uploads apart: the data id and the device. */
  datatype UploadId = UploadId(dataId: string, device: Option<DeviceId>)

  datatype Info = Info(key: ObjectKey, version: nat, isDelete: bool)

  function IdOf(utf8: string -> string, k: UploadKey): UploadId {
    UploadId(DataId(utf8, k.key), k.device)
  }

  function IdsOf(utf8: string -> string, rows: seq<UploadKey>): (ids: seq<UploadId>)
    ensures |ids| == |rows| && forall i :: 0 <= i < |rows| ==> ids[i] == IdOf(utf8, rows[i])
  {
    seq(|rows|, i requires 0 <= i < |rows| => IdOf(utf8, rows[i]))
  }

  function IdSet(utf8: string -> string, rows: set<UploadKey>): set<UploadId> {
    set k | k in rows :: IdOf(utf8, k)
  }

  /** No two of them share an id. */
  ghost predicate OwnIds(utf8: string -> string, rows: set<UploadKey>) {
    forall j, k :: j in rows && k in rows && IdOf(utf8, j) == IdOf(utf8, k) ==> j == k
  }

  // ---- what is eligible

  function ChangedUploads(index: map<ObjectKey, IndexRow>): set<UploadKey> {
    set k | k in index && index[k].changed :: UploadKey(k, None)
  }

  /** Device uploads of rows that exist, except those that the upload of a deletion covers. */
  function DeviceUploadsOf(index: map<ObjectKey, IndexRow>, deviceUploads: set<(ObjectKey, DeviceId)>): set<UploadKey> {
    set d | d in deviceUploads && d.0 in index && !(index[d.0].changed && index[d.0].file.None?) ::
      UploadKey(d.0, Some(d.1))
  }

  function Eligible(index: map<ObjectKey, IndexRow>, deviceUploads: set<(ObjectKey, DeviceId)>): set<UploadKey> {
    ChangedUploads(index) + DeviceUploadsOf(index, deviceUploads)
  }

  /** What is eligible, by the rows alone. */
  lemma EligibleIff(index: map<ObjectKey, IndexRow>, deviceUploads: set<(ObjectKey, DeviceId)>, k: UploadKey)
    ensures var row := RowIn(index, k.key);
      k in Eligible(index, deviceUploads) <==>
        row.Some? && match k.device
                     case None => row.value.changed
                     case Some(d) =>
                       (k.key, d) in deviceUploads && !(row.value.changed && row.value.entry.content.Tombstone?)
  {
    if k.device.Some? && (k.key, k.device.value) in deviceUploads {
      var d := (k.key, k.device.value);
      assert UploadKey(d.0, Some(d.1)) == k;
    }
  }

  lemma EligibleCount(index: map<ObjectKey, IndexRow>, deviceUploads: set<(ObjectKey, DeviceId)>)
    ensures |Eligible(index, deviceUploads)|
         == |set k | k in index && RowIn(index, k).value.changed|
            + |set d | d in deviceUploads && d.0 in index
                       && var row := RowIn(index, d.0).value; !(row.changed && row.entry.content.Tombstone?)|
  {
    var rows := set k | k in index && RowIn(index, k).value.changed;
    var devices := set d | d in deviceUploads && d.0 in index
                           && var row := RowIn(index, d.0).value; !(row.changed && row.entry.content.Tombstone?);
    var plain, single := (k: ObjectKey) => UploadKey(k, None), (d: (ObjectKey, DeviceId)) => UploadKey(d.0, Some(d.1));
    forall u | u in ChangedUploads(index) ensures exists k :: k in rows && plain(k) == u {
      assert u.key in rows && plain(u.key) == u;
    }
    ImageSize(plain, rows, ChangedUploads(index));
    forall u | u in DeviceUploadsOf(index, deviceUploads) ensures exists d :: d in devices && single(d) == u {
      var d := (u.key, u.device.value);
      assert d in devices && single(d) == u;
    }
    ImageSize(single, devices, DeviceUploadsOf(index, deviceUploads));
    assert ChangedUploads(index) !! DeviceUploadsOf(index, deviceUploads);
  }

  /** Some order of a set, as a query without ORDER BY returns it. */
  ghost predicate IsOrderOf(rows: seq<UploadKey>, all: set<UploadKey>) {
    (forall k :: k in rows <==> k in all) && Distinct(rows)
  }

  // ---- pigeonholes

  /** The rows that both queries return with their limits are all active. */
  ghost predicate WindowsActive(utf8: string -> string, changed: seq<UploadKey>, devices: seq<UploadKey>,
      active: set<UploadId>, limit: nat)
  {
    && (forall i :: 0 <= i < |changed| && i < limit ==> IdOf(utf8, changed[i]) in active)
    && (forall i :: 0 <= i < |devices| && |changed| + i < limit ==> IdOf(utf8, devices[i]) in active)
  }

  ghost predicate AllActive(utf8: string -> string, rows: seq<UploadKey>, active: set<UploadId>) {
    forall k :: k in rows ==> IdOf(utf8, k) in active
  }

  lemma FirstActive(utf8: string -> string, rows: seq<UploadKey>, active: set<UploadId>, limit: nat)
    requires Distinct(IdsOf(utf8, rows)) && |active| < limit
    requires forall i :: 0 <= i < |rows| && i < limit ==> IdOf(utf8, rows[i]) in active
    ensures |rows| < limit && AllActive(utf8, rows, active)
  {
    if |rows| >= limit {
      var ids := IdsOf(utf8, rows)[..limit];
      forall id | id in ids ensures id in active {
        var i :| 0 <= i < limit && ids[i] == id;
      }
      DistinctCount(ids, active);
    }
  }

  /** Two windows that are active as a whole leave out nothing as long as there is room. */
  lemma WindowsFull(utf8: string -> string, changed: seq<UploadKey>, devices: seq<UploadKey>,
      active: set<UploadId>, limit: nat)
    requires Distinct(IdsOf(utf8, changed + devices)) && |active| < limit
    requires WindowsActive(utf8, changed, devices, active, limit)
    ensures AllActive(utf8, changed + devices, active)
  {
    FirstActive(utf8, changed + devices, active, limit);
  }

  lemma FirstRowActive(utf8: string -> string, changed: seq<UploadKey>, devices: seq<UploadKey>,
      active: set<UploadId>, limit: nat)
    requires WindowsActive(utf8, changed, devices, active, limit) && 0 < limit
    ensures changed + devices != [] ==> active != {}
  {
    if changed != [] {
      assert IdOf(utf8, changed[0]) in active;
    } else if devices != [] {
      assert IdOf(utf8, devices[0]) in active;
    }
  }

  /** Whatever the order of the rows, their number and the limit: as long as there is room a scan
      that finds all its rows active has left out none. */
  ghost predicate NeverStarves(utf8: string -> string, all: set<UploadKey>) {
    forall changed, devices, active, limit ::
      RowsFrom(all, changed, devices) && |active| < limit && WindowsActive(utf8, changed, devices, active, limit) ==>
        AllActive(utf8, changed + devices, active)
  }

  ghost predicate RowsFrom(all: set<UploadKey>, changed: seq<UploadKey>, devices: seq<UploadKey>) {
    && Distinct(changed + devices)
    && (forall k :: k in changed ==> k in all && k.device.None?)
    && (forall k :: k in devices ==> k in all && k.device.Some?)
  }

  /** Two rows under one id, and a row under another one that may come after both. */
  ghost predicate Shadows(utf8: string -> string, a: UploadKey, b: UploadKey, c: UploadKey) {
    a != b && IdOf(utf8, a) == IdOf(utf8, b) && IdOf(utf8, c) != IdOf(utf8, a) && (a.device.None? || c.device.Some?)
  }

  lemma ShadowStarves(utf8: string -> string, all: set<UploadKey>, a: UploadKey, b: UploadKey, c: UploadKey)
    requires a in all && b in all && c in all && Shadows(utf8, a, b, c)
    ensures !NeverStarves(utf8, all)
  {
    var active := {IdOf(utf8, a)};
    var changed := if a.device.Some? then [] else if c.device.None? then [a, b, c] else [a, b];
    var devices := if a.device.Some? then [a, b, c] else if c.device.None? then [] else [c];
    assert RowsFrom(all, changed, devices) && WindowsActive(utf8, changed, devices, active, 2);
    assert c in changed + devices && !AllActive(utf8, changed + devices, active);
  }

  lemma NoShadow(utf8: string -> string, all: set<UploadKey>, changed: seq<UploadKey>, devices: seq<UploadKey>,
      active: set<UploadId>, limit: nat)
    requires forall a, b, c :: a in all && b in all && c in all ==> !Shadows(utf8, a, b, c)
    requires RowsFrom(all, changed, devices) && |active| < limit
    requires WindowsActive(utf8, changed, devices, active, limit)
    ensures AllActive(utf8, changed + devices, active)
  {
    if Distinct(IdsOf(utf8, changed)) {
      FirstActive(utf8, changed, active, limit);
      if Distinct(IdsOf(utf8, devices)) {
        BothDistinct(utf8, changed, devices);
        WindowsFull(utf8, changed, devices, active, limit);
      } else {
        var i, j :| 0 <= i < j < |devices| && IdsOf(utf8, devices)[i] == IdsOf(utf8, devices)[j];
        SamePair(changed, devices, i, j);
        forall k | k in devices ensures IdOf(utf8, k) in active {
          assert !Shadows(utf8, devices[i], devices[j], k) && !Shadows(utf8, devices[i], devices[j], devices[0]);
        }
      }
    } else {
      var i, j :| 0 <= i < j < |changed| && IdsOf(utf8, changed)[i] == IdsOf(utf8, changed)[j];
      assert (changed + devices)[i] != (changed + devices)[j];
      forall k | k in changed + devices ensures IdOf(utf8, k) in active {
        assert !Shadows(utf8, changed[i], changed[j], k) && !Shadows(utf8, changed[i], changed[j], changed[0]);
      }
    }
  }

  lemma SamePair(changed: seq<UploadKey>, devices: seq<UploadKey>, i: nat, j: nat)
    requires Distinct(changed + devices) && i < j < |devices|
    ensures devices[i] != devices[j]
  {
    var rows, n := changed + devices, |changed|;
    assert rows[n + i] == devices[i] && rows[n + j] == devices[j];
  }

  lemma BothDistinct(utf8: string -> string, changed: seq<UploadKey>, devices: seq<UploadKey>)
    requires Distinct(IdsOf(utf8, changed)) && Distinct(IdsOf(utf8, devices))
    requires (forall k :: k in changed ==> k.device.None?) && (forall k :: k in devices ==> k.device.Some?)
    ensures Distinct(IdsOf(utf8, changed + devices))
  {
    var ids, n := IdsOf(utf8, changed + devices), |changed|;
    forall i, j | 0 <= i < j < |ids| ensures ids[i] != ids[j] {
      if j < n {
        assert ids[i] == IdsOf(utf8, changed)[i] && ids[j] == IdsOf(utf8, changed)[j];
      } else if n <= i {
        assert ids[i] == IdsOf(utf8, devices)[i - n] && ids[j] == IdsOf(utf8, devices)[j - n];
      } else {
        assert changed[i] in changed && devices[j - n] in devices;
      }
    }
  }

  /** A scan never starves an upload exactly if no two uploads that come before a third share an
      id, which objects whose type name and id run together to the same text do. */
  lemma NeverStarvesIff(utf8: string -> string, all: set<UploadKey>)
    ensures NeverStarves(utf8, all) <==>
            forall a, b, c :: a in all && b in all && c in all ==> !Shadows(utf8, a, b, c)
  {
    if a, b, c :| a in all && b in all && c in all && Shadows(utf8, a, b, c) {
      ShadowStarves(utf8, all, a, b, c);
    } else {
      forall changed, devices, active, limit |
          RowsFrom(all, changed, devices) && |active| < limit && WindowsActive(utf8, changed, devices, active, limit)
        ensures AllActive(utf8, changed + devices, active)
      {
        NoShadow(utf8, all, changed, devices, active, limit);
      }
    }
  }

  /** How many uploads are active after a scan: as many as there can be. */
  function FilledSize(limit: int, active: set<UploadId>, eligible: set<UploadId>): int {
    if |active| >= limit then |active| else if limit <= |active + eligible| then limit else |active + eligible|
  }

  lemma FilledSizeIs(limit: int, active: set<UploadId>, active': set<UploadId>, eligible: set<UploadId>)
    requires active <= active' <= active + eligible && |active'| <= limit && |active| < limit
    requires |active'| < limit ==> eligible <= active'
    ensures |active'| == FilledSize(limit, active, eligible)
  {
    if |active'| < limit {
      assert active' == active + eligible;
    } else {
      SubsetSize(active', active + eligible);
    }
  }

  /** `active'` is `active` with the started uploads added, which are rows of the scan. */
  ghost predicate Starts(utf8: string -> string, index: map<ObjectKey, IndexRow>, rows: seq<UploadKey>,
      active: map<UploadId, Info>, active': map<UploadId, Info>, started: seq<UploadKey>)
  {
    && (forall id :: id in active' <==> id in active || exists k :: k in started && IdOf(utf8, k) == id)
    && (forall id :: id in active ==> active'[id] == active[id])
    && (forall k :: k in started ==> k in rows && IdOf(utf8, k) !in active && k.key in index)
    && (forall k :: k in started ==> IdOf(utf8, k) in active' && active'[IdOf(utf8, k)] == InfoAt(index, k))
  }

  function InfoAt(index: map<ObjectKey, IndexRow>, k: UploadKey): Info
    requires k.key in index
  {
    Info(k.key, index[k.key].version, index[k.key].file.None?)
  }

  lemma StartsMore(utf8: string -> string, index: map<ObjectKey, IndexRow>, changed: seq<UploadKey>, devices: seq<UploadKey>,
      a: map<UploadId, Info>, b: map<UploadId, Info>, c: map<UploadId, Info>, s: seq<UploadKey>, t: seq<UploadKey>)
    requires Starts(utf8, index, changed, a, b, s) && Starts(utf8, index, devices, b, c, t)
    ensures Starts(utf8, index, changed + devices, a, c, s + t)
  {
    forall id ensures id in c <==> id in a || exists k :: k in s + t && IdOf(utf8, k) == id {
      if id in b && id !in a {
        var k :| k in s && IdOf(utf8, k) == id;
        assert k in s + t;
      }
      if id in c && id !in b {
        var k :| k in t && IdOf(utf8, k) == id;
        assert k in s + t;
      }
    }
  }

  /** One more upload. */
  lemma StartsOne(utf8: string -> string, index: map<ObjectKey, IndexRow>, rows: seq<UploadKey>,
      a: map<UploadId, Info>, b: map<UploadId, Info>, s: seq<UploadKey>, k: UploadKey)
    requires Starts(utf8, index, rows, a, b, s) && k in rows && k.key in index && IdOf(utf8, k) !in b
    ensures Starts(utf8, index, rows, a, b[IdOf(utf8, k) := InfoAt(index, k)], s + [k])
  {
    var c := b[IdOf(utf8, k) := InfoAt(index, k)];
    forall id ensures id in c <==> id in a || exists x :: x in s + [k] && IdOf(utf8, x) == id {
      if id in b && id !in a {
        var x :| x in s && IdOf(utf8, x) == id;
        assert x in s + [k];
      }
      if id == IdOf(utf8, k) { assert k in s + [k]; }
    }
  }

  /** The first `n` rows have been visited. */
  ghost predicate Scanned(utf8: string -> string, index: map<ObjectKey, IndexRow>, rows: seq<UploadKey>, n: nat,
      a: map<UploadId, Info>, b: map<UploadId, Info>, s: seq<UploadKey>)
    requires n <= |rows|
  {
    Starts(utf8, index, rows, a, b, s) && forall j :: 0 <= j < n ==> IdOf(utf8, rows[j]) in b
  }

  lemma ScannedOne(utf8: string -> string, index: map<ObjectKey, IndexRow>, rows: seq<UploadKey>, n: nat,
      a: map<UploadId, Info>, b: map<UploadId, Info>, s: seq<UploadKey>, c: map<UploadId, Info>, isNew: bool)
    requires n < |rows| && Scanned(utf8, index, rows, n, a, b, s) && rows[n].key in index
    requires isNew <==> IdOf(utf8, rows[n]) !in b
    requires c == if isNew then b[IdOf(utf8, rows[n]) := InfoAt(index, rows[n])] else b
    ensures Scanned(utf8, index, rows, n + 1, a, c, if isNew then s + [rows[n]] else s)
  {
    if isNew { StartsOne(utf8, index, rows, a, b, s, rows[n]); }
  }

  // ---- the scheduler

  class ChangeController {
    const store: LocalStore
    const utf8: string -> string
    var deviceUploads: set<(ObjectKey, DeviceId)>
    var activeUploads: map<UploadId, Info>
    var uploadLimit: int
    var uploadingEnabled: bool

    constructor (store: LocalStore, utf8: string -> string)
      ensures this.store == store && this.utf8 == utf8 && deviceUploads == {} && activeUploads == map[]
      ensures uploadLimit == 10 && !uploadingEnabled
    {
      this.store, this.utf8, deviceUploads, activeUploads := store, utf8, {}, map[];
      uploadLimit, uploadingEnabled := 10, false;
    }

    function ToUpload(): set<UploadKey>
      reads this, store
    {
      Eligible(store.index, deviceUploads)
    }

    /** Every row has been uploaded, deletions included, and so has every device upload of a row. */
    ghost predicate NothingToUpload()
      reads this, store
    {
      && (forall k: ObjectKey :: store.RowAt(k).Some? ==> !store.RowAt(k).value.changed)
      && (forall d :: d in deviceUploads ==> store.RowAt(d.0).None?)
    }

    lemma NothingToUploadIff()
      ensures NothingToUpload() <==> ToUpload() == {}
    {
      if ToUpload() == {} {
        forall k: ObjectKey | k in store.index ensures !store.RowAt(k).value.changed {
          EligibleIff(store.index, deviceUploads, UploadKey(k, None));
        }
        forall d | d in deviceUploads ensures store.RowAt(d.0).None? {
          EligibleIff(store.index, deviceUploads, UploadKey(d.0, Some(d.1)));
        }
      } else {
        var k :| k in ToUpload();
        EligibleIff(store.index, deviceUploads, k);
        assert store.RowAt(k.key) == RowIn(store.index, k.key);
      }
    }

    /** The order in which the two queries return their rows. */
    ghost predicate ScanOrder(changed: seq<UploadKey>, devices: seq<UploadKey>)
      reads this, store
    {
      IsOrderOf(changed, ChangedUploads(store.index)) && IsOrderOf(devices, DeviceUploadsOf(store.index, deviceUploads))
    }

    /** The visitor of the scan: starts the upload of a row unless its id is active already, and
        answers whether there is room for more. */
    method Visit(k: UploadKey) returns (more: bool, started: bool)
      requires k.key in store.index && |activeUploads| < uploadLimit
      modifies this`activeUploads
      ensures started <==> IdOf(utf8, k) !in old(activeUploads)
      ensures activeUploads ==
        if started then old(activeUploads)[IdOf(utf8, k) := InfoAt(store.index, k)] else old(activeUploads)
      ensures started ==>
        var e := store.RowAt(k.key).value.entry;
        activeUploads[IdOf(utf8, k)] == Info(k.key, e.version, e.content.Tombstone?)
      ensures more <==> |activeUploads| < uploadLimit
      ensures |activeUploads| <= uploadLimit
    {
      if IdOf(utf8, k) in activeUploads {
        return true, false;
      }
      activeUploads := activeUploads[IdOf(utf8, k) := InfoAt(store.index, k)];
      return |activeUploads| < uploadLimit, true;
    }

    /** One query with LIMIT, up to the row that fills the window. */
    method Scan(rows: seq<UploadKey>, limit: nat) returns (more: bool, started: seq<UploadKey>)
      requires forall k :: k in rows ==> k.key in store.index
      requires |activeUploads| < uploadLimit
      modifies this`activeUploads
      ensures Starts(utf8, store.index, rows, old(activeUploads), activeUploads, started)
      ensures more <==> |activeUploads| < uploadLimit
      ensures |activeUploads| <= uploadLimit
      ensures more ==> forall i :: 0 <= i < |rows| && i < limit ==> IdOf(utf8, rows[i]) in activeUploads
    {
      more, started := true, [];
      ghost var before, index := activeUploads, store.index;
      var i := 0;
      while i < |rows| && i < limit && more
        invariant 0 <= i <= |rows| && i <= limit && store.index == index
        invariant Scanned(utf8, index, rows, i, before, activeUploads, started)
        invariant more <==> |activeUploads| < uploadLimit
        invariant |activeUploads| <= uploadLimit
        decreases |rows| - i
      {
        ghost var active := activeUploads;
        var isNew;
        more, isNew := Visit(rows[i]);
        ScannedOne(utf8, index, rows, i, before, active, started, activeUploads, isNew);
        started := if isNew then started + [rows[i]] else started;
        i := i + 1;
      }
    }

    /** Both queries, the second with what the first leaves of the limit. */
    method ScanBoth(changed: seq<UploadKey>, devices: seq<UploadKey>) returns (started: seq<UploadKey>)
      requires forall k :: k in changed + devices ==> k.key in store.index
      requires |activeUploads| < uploadLimit
      modifies this`activeUploads
      ensures Starts(utf8, store.index, changed + devices, old(activeUploads), activeUploads, started)
      ensures |activeUploads| <= uploadLimit
      ensures |activeUploads| < uploadLimit ==> WindowsActive(utf8, changed, devices, activeUploads.Keys, uploadLimit)
    {
      var more;
      more, started := Scan(changed, uploadLimit);
      if more {
        ghost var active1 := activeUploads;
        var startedDevices := [];
        if |changed| < uploadLimit {
          more, startedDevices := Scan(devices, uploadLimit - |changed|);
        }
        StartsMore(utf8, store.index, changed, devices, old(activeUploads), active1, activeUploads, started, startedDevices);
        started := started + startedDevices;
      }
    }

    lemma ScanOrderCovers(changed: seq<UploadKey>, devices: seq<UploadKey>)
      requires ScanOrder(changed, devices)
      ensures forall k :: k in changed + devices <==> k in ToUpload()
      ensures forall k :: k in changed + devices ==> k.key in store.index
      ensures OwnIds(utf8, ToUpload()) ==> Distinct(IdsOf(utf8, changed + devices))
    {
      assert forall i :: 0 <= i < |changed| ==> changed[i] in ChangedUploads(store.index);
      assert forall i :: 0 <= i < |devices| ==> devices[i] in DeviceUploadsOf(store.index, deviceUploads);
      var rows := changed + devices;
      if OwnIds(utf8, ToUpload()) {
        assert Distinct(rows);
        forall i, j | 0 <= i < j < |rows| ensures IdOf(utf8, rows[i]) != IdOf(utf8, rows[j]) {
          assert rows[i] in rows && rows[j] in rows && rows[i] != rows[j];
        }
      }
    }

    /** Fills the window: afterwards it is full or the id of everything eligible is active, unless
        two eligible uploads share an id; it never starts an upload when the limit is reached.  The
        signals are those of `uploadingChanged`. */
    method UploadNext(emitStarted: bool, changed: seq<UploadKey>, devices: seq<UploadKey>)
      returns (signals: seq<bool>, started: seq<UploadKey>)
      requires ScanOrder(changed, devices)
      modifies this`activeUploads
      ensures Starts(utf8, store.index, changed + devices, old(activeUploads), activeUploads, started)
      ensures old(|activeUploads|) >= uploadLimit ==> started == [] && activeUploads == old(activeUploads)
      ensures old(|activeUploads|) < uploadLimit ==> |activeUploads| <= uploadLimit
      ensures |activeUploads| < uploadLimit ==> WindowsActive(utf8, changed, devices, activeUploads.Keys, uploadLimit)
      ensures OwnIds(utf8, ToUpload()) && |activeUploads| < uploadLimit ==> IdSet(utf8, ToUpload()) <= activeUploads.Keys
      ensures OwnIds(utf8, ToUpload()) ==>
        |activeUploads| == FilledSize(uploadLimit, old(activeUploads.Keys), IdSet(utf8, ToUpload()))
      ensures 0 < uploadLimit ==> (activeUploads == map[] <==> old(activeUploads) == map[] && NothingToUpload())
      ensures signals ==
        if emitStarted && activeUploads != map[] then [true]
        else if activeUploads == map[] && 0 < uploadLimit then [false] else []
    {
      signals, started := [], [];
      var announce := emitStarted;
      if announce && activeUploads != map[] {
        announce := false;
        signals := [true];
      }
      if |activeUploads| >= uploadLimit {
        return;
      }
      ScanOrderCovers(changed, devices);
      started := ScanBoth(changed, devices);
      StartsIds(changed, devices, old(activeUploads), started);
      NothingLeft(changed, devices, old(activeUploads), started);
      if announce && started != [] {
        signals := signals + [true];
      }
      if activeUploads == map[] {
        signals := signals + [false];
      }
    }

    /** What a scan of the eligible rows leaves. */
    lemma StartsIds(changed: seq<UploadKey>, devices: seq<UploadKey>, before: map<UploadId, Info>, started: seq<UploadKey>)
      requires ScanOrder(changed, devices) && |before| < uploadLimit && |activeUploads| <= uploadLimit
      requires Starts(utf8, store.index, changed + devices, before, activeUploads, started)
      requires |activeUploads| < uploadLimit ==> WindowsActive(utf8, changed, devices, activeUploads.Keys, uploadLimit)
      ensures activeUploads == map[] <==> before == map[] && started == []
      ensures OwnIds(utf8, ToUpload()) && |activeUploads| < uploadLimit ==> IdSet(utf8, ToUpload()) <= activeUploads.Keys
      ensures OwnIds(utf8, ToUpload()) ==>
        |activeUploads| == FilledSize(uploadLimit, before.Keys, IdSet(utf8, ToUpload()))
    {
      ScanOrderCovers(changed, devices);
      assert started != [] ==> started[0] in started;
      if OwnIds(utf8, ToUpload()) {
        if |activeUploads| < uploadLimit {
          assert |activeUploads| == |activeUploads.Keys|;
          WindowsFull(utf8, changed, devices, activeUploads.Keys, uploadLimit);
        }
        assert |activeUploads| == |activeUploads.Keys| && |before| == |before.Keys|;
        FilledSizeIs(uploadLimit, before.Keys, activeUploads.Keys, IdSet(utf8, ToUpload()));
      }
    }

    /** A scan after which nothing is active has found nothing. */
    lemma NothingLeft(changed: seq<UploadKey>, devices: seq<UploadKey>, before: map<UploadId, Info>, started: seq<UploadKey>)
      requires ScanOrder(changed, devices) && 0 < uploadLimit
      requires Starts(utf8, store.index, changed + devices, before, activeUploads, started)
      requires activeUploads == map[] ==> WindowsActive(utf8, changed, devices, activeUploads.Keys, uploadLimit)
      ensures activeUploads == map[] <==> before == map[] && NothingToUpload()
      ensures activeUploads == map[] ==> started == []
    {
      ScanOrderCovers(changed, devices);
      NothingToUploadIff();
      assert started != [] ==> started[0] in started && IdOf(utf8, started[0]) in activeUploads;
      if activeUploads == map[] {
        FirstRowActive(utf8, changed, devices, activeUploads.Keys, uploadLimit);
        assert before.Keys == {};
      } else if before == map[] {
        var id :| id in activeUploads;
      }
    }

    /** The number of rows that both queries would return without LIMIT. */
    method ChangeCount() returns (count: nat)
      ensures count
           == |set k | k in store.index && store.RowAt(k).value.changed|
              + |set d | d in deviceUploads && d.0 in store.index
                         && var row := store.RowAt(d.0).value; !(row.changed && row.entry.content.Tombstone?)|
      ensures count == |ToUpload()|
    {
      EligibleCount(store.index, deviceUploads);
      assert (set k | k in store.index && store.RowAt(k).value.changed)
          == set k | k in store.index && RowIn(store.index, k).value.changed;
      assert (set d | d in deviceUploads && d.0 in store.index
                      && var row := store.RowAt(d.0).value; !(row.changed && row.entry.content.Tombstone?))
          == set d | d in deviceUploads && d.0 in store.index
                     && var row := RowIn(store.index, d.0).value; !(row.changed && row.entry.content.Tombstone?);
      var changed, devices := ChangedUploads(store.index), DeviceUploadsOf(store.index, deviceUploads);
      assert changed !! devices;
      count := |changed| + |devices|;
    }

    method SetUploadingEnabled(uploading: bool, changed: seq<UploadKey>, devices: seq<UploadKey>) returns (signals: seq<bool>)
      requires uploading ==> ScanOrder(changed, devices)
      modifies this`uploadingEnabled, this`activeUploads
      ensures uploadingEnabled == uploading
      ensures !uploading ==> signals == [false] && activeUploads == old(activeUploads)
      ensures uploading ==>
        signals == if old(activeUploads) != map[] then [true]
                   else if uploadLimit <= 0 then []
                   else if NothingToUpload() then [false] else [true]
      ensures uploading && signals == [false] ==> activeUploads == map[]
    {
      uploadingEnabled := uploading;
      if uploading {
        var started;
        signals, started := UploadNext(true, changed, devices);
      } else {
        signals := [false];
      }
    }

    method ClearUploads() returns (signals: seq<bool>)
      modifies this`uploadingEnabled, this`activeUploads
      ensures !uploadingEnabled && activeUploads == map[] && signals == [false]
    {
      signals := SetUploadingEnabled(false, [], []);
      activeUploads := map[];
    }

    /** The server accepted an upload.  The row is marked unless it has moved on since, and the
        next call of the scheduler is queued if there is room. */
    method UploadDone(dataId: string) returns (queueNext: bool)
      requires store.WellFormed()
      modifies this`activeUploads, store
      ensures store.WellFormed()
      ensures var id := UploadId(dataId, None);
        if id in old(activeUploads) then
          var info := old(activeUploads)[id];
          activeUploads == old(activeUploads) - {id} && store.OnlyTouches(info.key)
          && store.RowAt(info.key) ==
               MarkedUnchanged(store.config, old(store.RowAt(info.key)), info.version, info.isDelete)
        else activeUploads == old(activeUploads) && store.index == old(store.index)
      ensures queueNext <==>
        UploadId(dataId, None) in old(activeUploads) && uploadingEnabled && |activeUploads| < uploadLimit
    {
      var id := UploadId(dataId, None);
      if id !in activeUploads {
        return false;
      }
      var info := activeUploads[id];
      activeUploads := activeUploads - {id};
      store.MarkUnchanged(info.key, info.version, info.isDelete);
      queueNext := uploadingEnabled && |activeUploads| < uploadLimit;
    }

    method DeviceUploadDone(dataId: string, device: DeviceId) returns (queueNext: bool)
      modifies this`activeUploads, this`deviceUploads
      ensures var id := UploadId(dataId, Some(device));
        activeUploads == old(activeUploads) - {id}
        && deviceUploads ==
             if id in old(activeUploads) then old(deviceUploads) - {(old(activeUploads)[id].key, device)}
             else old(deviceUploads)
      ensures queueNext <==>
        UploadId(dataId, Some(device)) in old(activeUploads) && uploadingEnabled && |activeUploads| < uploadLimit
    {
      var id := UploadId(dataId, Some(device));
      if id !in activeUploads {
        return false;
      }
      var info := activeUploads[id];
      activeUploads := activeUploads - {id};
      deviceUploads := deviceUploads - {(info.key, device)};
      queueNext := uploadingEnabled && |activeUploads| < uploadLimit;
    }

    /** What follows the start of an upload whose stored file cannot be read: the data id alone is
        reported as done.  For a device upload that is the wrong one: it stays active itself, and
        a plain upload of the same data id, if there is one, ends and its row is marked although
        the server has not accepted it. */
    method AssumeUnchanged(k: UploadKey) returns (queueNext: bool)
      requires store.WellFormed()
      modifies this`activeUploads, store
      ensures store.WellFormed()
      ensures var id := IdOf(utf8, k); id in activeUploads <==> id in old(activeUploads) && k.device.Some?
      ensures var plain := UploadId(DataId(utf8, k.key), None);
        if plain in old(activeUploads) then
          var info := old(activeUploads)[plain];
          activeUploads == old(activeUploads) - {plain} && store.OnlyTouches(info.key)
          && store.RowAt(info.key) ==
               MarkedUnchanged(store.config, old(store.RowAt(info.key)), info.version, info.isDelete)
        else activeUploads == old(activeUploads) && store.index == old(store.index)
    {
      queueNext := UploadDone(DataId(utf8, k.key));
    }

    method ChangeTriggered(changed: seq<UploadKey>, devices: seq<UploadKey>) returns (signals: seq<bool>)
      requires ScanOrder(changed, devices)
      modifies this`activeUploads
      ensures !uploadingEnabled ==> signals == [] && activeUploads == old(activeUploads)
      ensures uploadingEnabled && OwnIds(utf8, ToUpload()) ==>
        |activeUploads| == FilledSize(uploadLimit, old(activeUploads.Keys), IdSet(utf8, ToUpload()))
      ensures signals ==
        if !uploadingEnabled || old(activeUploads) != map[] || uploadLimit <= 0 then []
        else if NothingToUpload() then [false] else [true]
      ensures signals == [false] ==> activeUploads == map[]
    {
      signals := [];
      if uploadingEnabled {
        var started;
        signals, started := UploadNext(activeUploads == map[], changed, devices);
      }
    }
  }

  // ---- the engine

  datatype SyncState = Initializing | Downloading | Uploading | Synchronized | Error | Disconnected

  datatype RemoteEvent = RemoteDisconnected | RemoteConnecting | RemoteReady | RemoteReadyWithChanges

  function UploadingChanged(state: SyncState, uploading: bool): SyncState {
    if state == Error then state
    else if uploading then Uploading
    else if state == Uploading then Synchronized
    else state
  }

  function Handled(state: SyncState, signals: seq<bool>): SyncState
    decreases |signals|
  {
    if signals == [] then state else Handled(UploadingChanged(state, signals[0]), signals[1..])
  }

  /** Only the end of the uploads leads to `Synchronized`. */
  lemma {:induction false} HandledStays(state: SyncState, signals: seq<bool>)
    requires false !in signals
    ensures Handled(state, signals) == Synchronized ==> state == Synchronized
    ensures state == Uploading ==> Handled(state, signals) == Uploading
    decreases |signals|
  {
    if signals != [] {
      assert signals[0] in signals;
      HandledStays(UploadingChanged(state, signals[0]), signals[1..]);
    }
  }

  lemma HandledFalse(state: SyncState)
    ensures Handled(state, [false]) == if state == Uploading then Synchronized else state
  {
    assert [false][1..] == [];
  }

  class ExchangeEngine {
    const changes: ChangeController
    const sync: SyncController
    var state: SyncState

    constructor (changes: ChangeController, sync: SyncController)
      ensures this.changes == changes && this.sync == sync && state == Initializing
    {
      this.changes, this.sync, state := changes, sync, Initializing;
    }

    /** Entering `Synchronized` means that nothing is left to upload. */
    twostate predicate Honest()
      reads this, changes, changes.store
    {
      state == Synchronized && old(state) != Synchronized ==> changes.NothingToUpload() && changes.activeUploads == map[]
    }

    method Deliver(signals: seq<bool>)
      modifies this`state
      ensures state == Handled(old(state), signals)
    {
      for i := 0 to |signals|
        invariant Handled(state, signals[i..]) == Handled(old(state), signals)
      {
        state := UploadingChanged(state, signals[i]);
        assert signals[i..][1..] == signals[i + 1..];
      }
    }

    method OnRemoteEvent(event: RemoteEvent, changed: seq<UploadKey>, devices: seq<UploadKey>)
      requires changes.ScanOrder(changed, devices)
      modifies this`state, changes`uploadingEnabled, changes`activeUploads, sync`enabled
      ensures Honest()
      ensures old(state) == Error && event != RemoteConnecting ==>
        state == Error && changes.activeUploads == old(changes.activeUploads) && sync.enabled == old(sync.enabled)
      ensures old(state) != Error || event == RemoteConnecting ==>
        (sync.enabled <==> event.RemoteReady? || event.RemoteReadyWithChanges?)
        && (changes.uploadingEnabled <==> event.RemoteReady?)
        && (event.RemoteDisconnected? || event.RemoteConnecting? ==> changes.activeUploads == map[])
        && (event.RemoteReadyWithChanges? ==> changes.activeUploads == old(changes.activeUploads))
        && state == match event
                    case RemoteDisconnected => Disconnected
                    case RemoteConnecting => Initializing
                    case RemoteReadyWithChanges => Downloading
                    case RemoteReady =>
                      if old(changes.activeUploads) == map[] && changes.NothingToUpload() && 0 < changes.uploadLimit
                      then Synchronized else Uploading
    {
      if state == Error && event != RemoteConnecting {
        return;
      }
      var signals;
      match event
      case RemoteDisconnected =>
        state := Disconnected;
        sync.SetSyncEnabled(false);
        signals := changes.ClearUploads();
        HandledFalse(state);
        Deliver(signals);
      case RemoteConnecting =>
        state := Initializing;
        sync.SetSyncEnabled(false);
        signals := changes.ClearUploads();
        HandledFalse(state);
        Deliver(signals);
      case RemoteReady =>
        state := Uploading;
        sync.SetSyncEnabled(true);
        signals := changes.SetUploadingEnabled(true, changed, devices);
        HandledFalse(state);
        if false !in signals {
          HandledStays(state, signals);
        }
        Deliver(signals);
      case RemoteReadyWithChanges =>
        state := Downloading;
        sync.SetSyncEnabled(true);
        signals := changes.SetUploadingEnabled(false, changed, devices);
        HandledFalse(state);
        Deliver(signals);
    }

    method OnControllerError()
      modifies this`state, changes`uploadingEnabled, changes`activeUploads
      ensures state == Error && changes.activeUploads == map[] && !changes.uploadingEnabled
    {
      state := Error;
      var signals := changes.ClearUploads();
      HandledFalse(state);
      Deliver(signals);
    }

    /** A local change, or the end of a download. */
    method OnChangeTriggered(changed: seq<UploadKey>, devices: seq<UploadKey>)
      requires changes.ScanOrder(changed, devices)
      modifies this`state, changes`activeUploads
      ensures Honest()
      ensures state ==
        if !changes.uploadingEnabled || old(changes.activeUploads) != map[] || changes.uploadLimit <= 0 then old(state)
        else if old(state) == Error then Error
        else if !changes.NothingToUpload() then Uploading
        else if old(state) == Uploading then Synchronized
        else old(state)
    {
      var signals := changes.ChangeTriggered(changed, devices);
      HandledFalse(state);
      if false !in signals {
        HandledStays(state, signals);
      }
      Deliver(signals);
    }

    /** A queued call of the scheduler, even if uploading was disabled in the meantime. */
    method OnUploadNext(changed: seq<UploadKey>, devices: seq<UploadKey>)
      requires changes.ScanOrder(changed, devices)
      modifies this`state, changes`activeUploads
      ensures Honest()
      ensures state ==
        if old(state) == Uploading && old(changes.activeUploads) == map[] && changes.NothingToUpload() && 0 < changes.uploadLimit
        then Synchronized else old(state)
    {
      var signals, started := changes.UploadNext(false, changed, devices);
      HandledFalse(state);
      if false !in signals {
        HandledStays(state, signals);
      }
      Deliver(signals);
    }

    /** The part of an account reset before the tables are emptied: the one way to reach
        `Synchronized` with changes left. */
    method ResetUploads()
      modifies this`state, changes`uploadingEnabled, changes`activeUploads, sync`enabled
      ensures changes.activeUploads == map[] && !changes.uploadingEnabled && !sync.enabled
      ensures state == if old(state) == Uploading then Synchronized else old(state)
    {
      sync.SetSyncEnabled(false);
      var signals := changes.ClearUploads();
      HandledFalse(state);
      Deliver(signals);
    }
  }
}
