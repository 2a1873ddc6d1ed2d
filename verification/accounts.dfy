/** All objects of an account at once.  Every object is replicated on its own, but a broken
    connection breaks the uploads of all objects, clearing a type removes many, and uploads are
    told apart by their data ids only: while one is active no other with the same data id is
    started, and accepting one removes what is stored of the same device under its data id, of
    whatever object. */
module Accounts {
  import opened Rows
  import opened Merge
  import opened Replication
  import opened Settling
  import opened Divergence

  /** `keys` are the objects that the devices ever use. */
  datatype Account = Account(sys: System, keys: set<ObjectKey>, utf8: string -> string)

  type Objects = map<ObjectKey, Net>

  datatype AccountAction =
    | On(key: ObjectKey, a: Action)
    | Disconnect(d: Device)
    | ClearType(d: Device, typeName: string)

  predicate SameId(a: Account, j: ObjectKey, k: ObjectKey) {
    DataId(a.utf8, j) == DataId(a.utf8, k)
  }

  /** Another object in use is filed under the same data id. */
  ghost predicate Collides(a: Account, k: ObjectKey) {
    exists j :: j in a.keys && j != k && SameId(a, j, k)
  }

  ghost predicate AllWellFormed(a: Account, s: Objects) {
    s.Keys == a.keys && forall k :: k in s ==> WellFormed(a.sys, s[k])
  }

  function Start(a: Account): Objects {
    map k | k in a.keys :: Initial(a.sys)
  }

  // ---- the steps

  ghost function Next(sys: System, s: Net, step: Action): (r: Net)
    requires WellFormed(sys, s)
    ensures WellFormed(sys, r)
  {
    ApplyWellFormed(sys, s, step);
    Apply(sys, s, step)
  }

  /** Nobody waits any more for what `d` has uploaded. */
  ghost function Displaced(s: Net, d: Device): Net {
    s.(pending := set p | p in s.pending && !(p.1 < |s.log| && s.log[p.1].source == d))
  }

  ghost predicate Uploading(s: Net, d: Device) {
    d in s.active && s.active[d].Some?
  }

  /** The data id is among the active uploads of the device already. */
  ghost predicate Blocked(a: Account, s: Objects, k: ObjectKey, step: Action) {
    step.StartUpload? && exists j :: j in s && j != k && SameId(a, j, k) && Uploading(s[j], step.d)
  }

  /** The object `k` is now `net`; other objects under its data id lose what `d` has uploaded if
      an upload of `d` was accepted. */
  ghost function Placed(a: Account, s: Objects, k: ObjectKey, net: Net, accepted: bool, d: Device): (r: Objects)
    requires AllWellFormed(a, s) && WellFormed(a.sys, net)
    ensures AllWellFormed(a, r)
  {
    map j | j in s :: if j == k then net else if accepted && SameId(a, j, k) then Displaced(s[j], d) else s[j]
  }

  ghost function StepOn(a: Account, s: Objects, k: ObjectKey, step: Action): (r: Objects)
    requires AllWellFormed(a, s) && k in a.keys
    ensures AllWellFormed(a, r)
  {
    Placed(a, s, k, Next(a.sys, s[k], step), step.Accept? && Enabled(a.sys, s[k], step), step.d)
  }

  ghost function StepAll(a: Account, s: Objects, x: AccountAction): (r: Objects)
    requires AllWellFormed(a, s)
    ensures AllWellFormed(a, r)
  {
    match x
    case On(k, step) => if k in a.keys && !Blocked(a, s, k, step) then StepOn(a, s, k, step) else s
    case Disconnect(d) => map j | j in s :: Next(a.sys, s[j], Reconnect(d))
    case ClearType(d, typeName) => map j | j in s :: if j.typeName == typeName then Next(a.sys, s[j], Remove(d)) else s[j]
  }

  ghost function AfterAll(a: Account, s: Objects, run: seq<AccountAction>): (r: Objects)
    requires AllWellFormed(a, s)
    ensures AllWellFormed(a, r)
    decreases |run|
  {
    if run == [] then s else AfterAll(a, StepAll(a, s, run[0]), run[1..])
  }

  lemma {:induction false} AfterAllCat(a: Account, s: Objects, run: seq<AccountAction>, more: seq<AccountAction>)
    requires AllWellFormed(a, s)
    ensures AfterAll(a, s, run + more) == AfterAll(a, AfterAll(a, s, run), more)
    decreases |run|
  {
    if run == [] {
      assert run + more == more;
    } else {
      assert (run + more)[1..] == run[1..] + more;
      AfterAllCat(a, StepAll(a, s, run[0]), run[1..], more);
    }
  }

  /** The device uploads another object that has the data id of `k`. */
  ghost predicate UploadsAlike(a: Account, s: Objects, k: ObjectKey, d: Device) {
    exists j :: j in s && j != k && DataId(a.utf8, j) == DataId(a.utf8, k) && d in s[j].active && s[j].active[d].Some?
  }

  lemma BlockedIff(a: Account, s: Objects, k: ObjectKey, d: Device)
    ensures Blocked(a, s, k, StartUpload(d)) <==> UploadsAlike(a, s, k, d)
  {
    if j :| j in s && j != k && SameId(a, j, k) && Uploading(s[j], d) {
      assert d in s[j].active;
    }
    if UploadsAlike(a, s, k, d) {
      var j :| j in s && j != k && DataId(a.utf8, j) == DataId(a.utf8, k) && d in s[j].active && s[j].active[d].Some?;
      assert SameId(a, j, k) && Uploading(s[j], d);
    }
  }

  /** An upload waits while another object under its data id is being uploaded by the device. */
  lemma UploadStartsIff(a: Account, s: Objects, k: ObjectKey, d: Device)
    requires AllWellFormed(a, s) && k in a.keys
    ensures StepAll(a, s, On(k, StartUpload(d)))[k]
         == if UploadsAlike(a, s, k, d) then s[k] else Apply(a.sys, s[k], StartUpload(d))
  {
    BlockedIff(a, s, k, d);
  }

  /** Nobody waits any more for a change of `d`, and nothing else is different. */
  ghost predicate LosesUploads(s: Net, d: Device, s': Net) {
    && s' == s.(pending := s'.pending)
    && forall p :: p in s'.pending <==> p in s.pending && (p.1 < |s.log| ==> s.log[p.1].source != d)
  }

  lemma DisplacedIs(s: Net, d: Device, s': Net)
    requires s' == Displaced(s, d)
    ensures LosesUploads(s, d, s')
  {}

  /** An accepted upload takes the changes of the same device under its data id from whoever waits
      for them, and leaves everything else of the other objects. */
  lemma AcceptDisplaces(a: Account, s: Objects, k: ObjectKey, net: Net, accepted: bool, d: Device, j: ObjectKey)
    requires AllWellFormed(a, s) && WellFormed(a.sys, net) && j in s && j != k
    ensures var s' := Placed(a, s, k, net, accepted, d)[j];
      if accepted && DataId(a.utf8, j) == DataId(a.utf8, k) then LosesUploads(s[j], d, s') else s' == s[j]
  {
    if accepted && SameId(a, j, k) { DisplacedIs(s[j], d, Displaced(s[j], d)); }
  }

  /** No object waits to be uploaded or for an acknowledgement. */
  ghost predicate AtRest(a: Account, s: Objects)
    requires AllWellFormed(a, s)
  {
    forall k :: k in s ==> Quiet(a.sys, s[k])
  }

  // ---- an object with a data id of its own

  /** What a step of the account is for one object. */
  function StepOf(x: AccountAction, k: ObjectKey): seq<Action> {
    match x
    case On(key, step) => if k == key then [step] else []
    case Disconnect(d) => [Reconnect(d)]
    case ClearType(d, typeName) => if k.typeName == typeName then [Remove(d)] else []
  }

  function RunOf(run: seq<AccountAction>, k: ObjectKey): seq<Action> {
    if run == [] then [] else StepOf(run[0], k) + RunOf(run[1..], k)
  }

  lemma StepProjects(a: Account, s: Objects, x: AccountAction, k: ObjectKey)
    requires AllWellFormed(a, s) && k in a.keys && !Collides(a, k)
    ensures StepAll(a, s, x)[k] == After(a.sys, s[k], StepOf(x, k))
  {
    match x
    case On(key, step) => if key == k { OneAction(a.sys, s[k], step); }
    case Disconnect(d) => OneAction(a.sys, s[k], Reconnect(d));
    case ClearType(d, typeName) => if k.typeName == typeName { OneAction(a.sys, s[k], Remove(d)); }
  }

  lemma OneAction(sys: System, s: Net, step: Action)
    requires WellFormed(sys, s)
    ensures WellFormed(sys, Apply(sys, s, step)) && After(sys, s, [step]) == Apply(sys, s, step)
  {
    ApplyWellFormed(sys, s, step);
    AfterCons(sys, s, step, [], Apply(sys, s, step));
    assert [step] + [] == [step];
  }

  /** A run of the account is, for such an object, a run of that object alone. */
  lemma {:induction false} Projects(a: Account, s: Objects, run: seq<AccountAction>, k: ObjectKey)
    requires AllWellFormed(a, s) && k in a.keys && !Collides(a, k)
    ensures AfterAll(a, s, run)[k] == After(a.sys, s[k], RunOf(run, k))
    decreases |run|
  {
    if run != [] {
      StepProjects(a, s, run[0], k);
      Projects(a, StepAll(a, s, run[0]), run[1..], k);
      AfterAppend(a.sys, s[k], StepOf(run[0], k), RunOf(run[1..], k));
    }
  }

  /** Whatever happened in the account: an object with a data id of its own that no device has to
      upload and that waits for no device is the same on all devices. */
  lemma EveryObjectConverges(a: Account, run: seq<AccountAction>, k: ObjectKey)
    requires PersistsDeleted(a.sys) && k in a.keys && !Collides(a, k)
    ensures
      var s := AfterAll(a, Start(a), run)[k];
      Quiet(a.sys, s) ==> Converged(a.sys, s)
  {
    Projects(a, Start(a), run, k);
    Convergence(a.sys, RunOf(run, k));
  }

  // ---- a run of one object, in the account

  function Lift(k: ObjectKey, run: seq<Action>): seq<AccountAction> {
    if run == [] then [] else [On(k, run[0])] + Lift(k, run[1..])
  }

  /** No other object is being uploaded, and no other is stored if something is to be accepted. */
  ghost predicate Alone(s: Objects, k: ObjectKey, run: seq<Action>) {
    && (forall j, d :: j in s && j != k ==> !Uploading(s[j], d))
    && ((forall j :: j in s && j != k ==> s[j].pending == {}) || NoAccept(run))
  }

  ghost predicate NoAccept(run: seq<Action>) {
    forall step :: step in run ==> !step.Accept?
  }

  /** Only `k` may differ. */
  ghost predicate SameBut(s: Objects, r: Objects, k: ObjectKey) {
    r.Keys == s.Keys && forall j :: j in s && j != k ==> r[j] == s[j]
  }

  lemma NothingDisplaced(s: Net, d: Device)
    requires s.pending == {}
    ensures Displaced(s, d) == s
  {
    assert Displaced(s, d).pending == {};
  }

  lemma PlacedAlone(a: Account, s: Objects, k: ObjectKey, net: Net, accepted: bool, d: Device)
    requires AllWellFormed(a, s) && WellFormed(a.sys, net) && k in s
    requires accepted ==> forall j :: j in s && j != k ==> s[j].pending == {}
    ensures var r := Placed(a, s, k, net, accepted, d); r[k] == net && SameBut(s, r, k)
  {
    forall j | j in s && j != k && accepted ensures Displaced(s[j], d) == s[j] {
      NothingDisplaced(s[j], d);
    }
  }

  lemma NotBlocked(a: Account, s: Objects, k: ObjectKey, step: Action)
    requires forall j, d :: j in s && j != k ==> !Uploading(s[j], d)
    ensures !Blocked(a, s, k, step)
  {}

  lemma StepAlone(a: Account, s: Objects, k: ObjectKey, step: Action)
    requires AllWellFormed(a, s) && k in a.keys && Alone(s, k, [step])
    ensures var r := StepAll(a, s, On(k, step)); r[k] == Next(a.sys, s[k], step) && SameBut(s, r, k)
  {
    NotBlocked(a, s, k, step);
    assert step in [step];
    PlacedAlone(a, s, k, Next(a.sys, s[k], step), step.Accept? && Enabled(a.sys, s[k], step), step.d);
  }

  lemma AloneStays(s: Objects, r: Objects, k: ObjectKey, run: seq<Action>)
    requires run != [] && Alone(s, k, run) && SameBut(s, r, k)
    ensures Alone(r, k, run[1..]) && Alone(s, k, [run[0]])
  {
    assert run[0] in run;
  }

  lemma {:induction false} Lifted(a: Account, s: Objects, k: ObjectKey, run: seq<Action>)
    requires AllWellFormed(a, s) && k in a.keys && Alone(s, k, run)
    ensures var r := AfterAll(a, s, Lift(k, run)); r[k] == After(a.sys, s[k], run) && SameBut(s, r, k)
    decreases |run|
  {
    if run != [] {
      AloneStays(s, s, k, run);
      StepAlone(a, s, k, run[0]);
      var s1 := StepAll(a, s, On(k, run[0]));
      AloneStays(s, s1, k, run);
      Lifted(a, s1, k, run[1..]);
      assert Lift(k, run)[1..] == Lift(k, run[1..]);
    }
  }

  // ---- two objects under one data id

  lemma CollidingPair(a: Account)
    requires a.utf8("s1") == "s1" && a.utf8("1") == "1"
    requires ObjectKey("Item", "s1") in a.keys && ObjectKey("Items", "1") in a.keys
    ensures Collides(a, ObjectKey("Item", "s1")) && Collides(a, ObjectKey("Items", "1"))
  {
    assert "Item" + "s1" == "Items" + "1";
    assert SameId(a, ObjectKey("Item", "s1"), ObjectKey("Items", "1"));
    assert SameId(a, ObjectKey("Items", "1"), ObjectKey("Item", "s1"));
  }

  /** The object saved once on `d` and uploaded from there. */
  ghost function SavedAndUploaded(sys: System, d: Device): Net
    requires d in sys.devices
  {
    Uploaded(sys, Initial(sys).(rows := Initial(sys).rows[d := Some(Row(Entry(1, Live("a")), true))]), d)
  }

  lemma SaveAndUpload(sys: System, d: Device)
    requires d in sys.devices
    ensures
      var r := After(sys, Initial(sys), [Save(d, "a")] + Round(d));
      && r == SavedAndUploaded(sys, d) && WellFormed(sys, r)
      && r.rows == Initial(sys).rows[d := Some(Row(Entry(1, Live("a")), false))]
      && |r.log| == 1 && r.log[0] == Change(d, Entry(1, Live("a"))) && r.active == Initial(sys).active
      && r.pending == (set x | x in sys.devices - {d} :: (x, 0))
  {
    WriteAndUpload(sys, Initial(sys), Save(d, "a"), d);
    OnlyNewestWaits(sys, Apply(sys, Initial(sys), Save(d, "a")), d);
  }

  /** Delivering the upload to every other device leaves nothing to do. */
  lemma SaveUploadDeliver(sys: System, d: Device) returns (run: seq<Action>)
    requires d in sys.devices
    ensures
      var s := SavedAndUploaded(sys, d);
      WellFormed(sys, s) && var r := After(sys, s, run); Quiet(sys, r)
    ensures forall step :: step in run ==> !step.Accept?
  {
    SaveAndUpload(sys, d);
    var s';
    run, s' := DeliverAll(sys, SavedAndUploaded(sys, d), 0, sys.devices - {d});
  }

  /** What is left of the first object once the second is accepted under its data id. */
  lemma DisplacedUpload(sys: System, d: Device)
    requires d in sys.devices
    ensures
      var s := Displaced(SavedAndUploaded(sys, d), d);
      && WellFormed(sys, s) && Quiet(sys, s) && s.active == Initial(sys).active
      && s.rows == Initial(sys).rows[d := Some(Row(Entry(1, Live("a")), false))]
  {
    SaveAndUpload(sys, d);
    assert Displaced(SavedAndUploaded(sys, d), d).pending == {};
  }

  /** Everything but `j` and `k` has never been touched. */
  ghost predicate Only(a: Account, s: Objects, j: ObjectKey, n: Net, k: ObjectKey, m: Net) {
    && AllWellFormed(a, s) && j in a.keys && k in a.keys && j != k && s[j] == n && s[k] == m
    && forall i :: i in s && i != j && i != k ==> s[i] == Initial(a.sys)
  }

  /** The second object accepted, with everything but the first one as it was. */
  lemma SecondAccepted(a: Account, s: Objects, j: ObjectKey, n: Net, k: ObjectKey, m: Net, d: Device)
    requires Only(a, s, j, n, k, m) && SameId(a, k, j) && Enabled(a.sys, n, Accept(d))
    ensures Only(a, StepAll(a, s, On(j, Accept(d))), j, Next(a.sys, n, Accept(d)), k, Displaced(m, d))
  {
    NothingDisplaced(Initial(a.sys), d);
  }

  /** A run of `j` in which nothing is accepted. */
  lemma RunOfSecond(a: Account, s: Objects, j: ObjectKey, n: Net, k: ObjectKey, m: Net, run: seq<Action>)
    requires Only(a, s, j, n, k, m) && m.active == Initial(a.sys).active && NoAccept(run)
    ensures Only(a, AfterAll(a, s, Lift(j, run)), j, After(a.sys, n, run), k, m)
  {
    Lifted(a, s, j, run);
  }

  lemma TwoParts(sys: System, s: Net, d: Device)
    requires WellFormed(sys, s)
    ensures After(sys, s, [Save(d, "a")] + Round(d))
         == After(sys, Next(sys, After(sys, s, [Save(d, "a"), StartUpload(d)]), Accept(d)), [AckUpload(d)])
  {
    var first, rest := [Save(d, "a"), StartUpload(d)], [Accept(d), AckUpload(d)];
    assert [Save(d, "a")] + Round(d) == first + rest;
    AfterAppend(sys, s, first, rest);
    var s1 := After(sys, s, first);
    AfterCons(sys, s1, Accept(d), [AckUpload(d)], Next(sys, s1, Accept(d)));
    assert [Accept(d)] + [AckUpload(d)] == rest;
  }

  lemma StartedUpload(sys: System, d: Device)
    requires d in sys.devices
    ensures After(sys, Initial(sys), [Save(d, "a"), StartUpload(d)]).up[d] != []
  {
    var s1 := Next(sys, Initial(sys), Save(d, "a"));
    AfterCons(sys, Initial(sys), Save(d, "a"), [StartUpload(d)], s1);
    OneAction(sys, s1, StartUpload(d));
    assert [Save(d, "a")] + [StartUpload(d)] == [Save(d, "a"), StartUpload(d)];
  }

  /** Accepting the upload of the second object, and what follows. */
  lemma AcceptSecond(a: Account, s: Objects, j: ObjectKey, n: Net, k: ObjectKey, m: Net, d: Device, last: seq<Action>)
    requires Only(a, s, j, n, k, m) && SameId(a, k, j) && Enabled(a.sys, n, Accept(d))
    requires m.active == Initial(a.sys).active && NoAccept(last)
    ensures Only(a, AfterAll(a, s, [On(j, Accept(d))] + Lift(j, last)),
                 j, After(a.sys, Next(a.sys, n, Accept(d)), last), k, Displaced(m, d))
  {
    SecondAccepted(a, s, j, n, k, m, d);
    RunOfSecond(a, StepAll(a, s, On(j, Accept(d))), j, Next(a.sys, n, Accept(d)), k, Displaced(m, d), last);
    assert ([On(j, Accept(d))] + Lift(j, last))[1..] == Lift(j, last);
  }

  /** Uploading the second object, from its first step to its last, takes away what is stored of
      the first. */
  lemma SecondUpload(a: Account, s: Objects, j: ObjectKey, n: Net, k: ObjectKey, m: Net, d: Device,
      first: seq<Action>, p: Net, last: seq<Action>)
    requires Only(a, s, j, n, k, m) && SameId(a, k, j) && m.active == Initial(a.sys).active
    requires NoAccept(first) && NoAccept(last)
    requires p == After(a.sys, n, first) && Enabled(a.sys, p, Accept(d))
    ensures Only(a, AfterAll(a, s, Lift(j, first) + ([On(j, Accept(d))] + Lift(j, last))),
                 j, After(a.sys, Next(a.sys, p, Accept(d)), last), k, Displaced(m, d))
  {
    RunOfSecond(a, s, j, n, k, m, first);
    AcceptSecond(a, AfterAll(a, s, Lift(j, first)), j, p, k, m, d, last);
    AfterAllCat(a, s, Lift(j, first), [On(j, Accept(d))] + Lift(j, last));
  }

  lemma ThreeParts(a: Account, s: Objects, x: seq<AccountAction>, y: seq<AccountAction>, z: seq<AccountAction>)
    requires AllWellFormed(a, s)
    ensures AfterAll(a, s, x + (y + z)) == AfterAll(a, AfterAll(a, AfterAll(a, s, x), y), z)
  {
    AfterAllCat(a, s, x, y + z);
    AfterAllCat(a, AfterAll(a, s, x), y, z);
  }

  lemma InitialQuiet(sys: System)
    ensures Quiet(sys, Initial(sys))
  {}

  function SecondRun(j: ObjectKey, d: Device): seq<AccountAction> {
    Lift(j, [Save(d, "a"), StartUpload(d)]) + ([On(j, Accept(d))] + Lift(j, [AckUpload(d)]))
  }

  lemma FirstUpload(a: Account, k: ObjectKey, j: ObjectKey, d: Device)
    requires j in a.keys && k in a.keys && j != k && d in a.sys.devices
    ensures Only(a, AfterAll(a, Start(a), Lift(k, [Save(d, "a")] + Round(d))),
                 j, Initial(a.sys), k, SavedAndUploaded(a.sys, d))
  {
    SaveAndUpload(a.sys, d);
    Lifted(a, Start(a), k, [Save(d, "a")] + Round(d));
  }

  lemma SecondUploadOf(a: Account, s: Objects, k: ObjectKey, j: ObjectKey, d: Device)
    requires d in a.sys.devices && SameId(a, k, j)
    requires Only(a, s, j, Initial(a.sys), k, SavedAndUploaded(a.sys, d))
    ensures Only(a, AfterAll(a, s, SecondRun(j, d)),
                 j, SavedAndUploaded(a.sys, d), k, Displaced(SavedAndUploaded(a.sys, d), d))
  {
    var sys, first := a.sys, [Save(d, "a"), StartUpload(d)];
    SaveAndUpload(sys, d);
    StartedUpload(sys, d);
    TwoParts(sys, Initial(sys), d);
    SecondUpload(a, s, j, Initial(sys), k, SavedAndUploaded(sys, d), d, first, After(sys, Initial(sys), first), [AckUpload(d)]);
  }

  /** Two objects with the same data id: a device saves and uploads both.  The second upload takes
      the first one's place on the server, and when everything has been delivered no other device
      has ever heard of the first object. */
  lemma CollisionDiverges(a: Account, k: ObjectKey, j: ObjectKey, d: Device, x: Device) returns (run: seq<AccountAction>)
    requires j in a.keys && k in a.keys && j != k && SameId(a, k, j)
    requires d in a.sys.devices && x in a.sys.devices && d != x
    ensures
      var s := AfterAll(a, Start(a), run);
      && AtRest(a, s) && !Converged(a.sys, s[k])
      && s[k].rows[d] == Some(Row(Entry(1, Live("a")), false)) && s[k].rows[x] == None
  {
    var upload := Lift(k, [Save(d, "a")] + Round(d));
    var s1 := AfterAll(a, Start(a), upload);
    FirstUpload(a, k, j, d);
    SecondUploadOf(a, s1, k, j, d);
    DisplacedUpload(a.sys, d);
    var u, v := SavedAndUploaded(a.sys, d), Displaced(SavedAndUploaded(a.sys, d), d);
    var delivery := SaveUploadDeliver(a.sys, d);
    RunOfSecond(a, AfterAll(a, s1, SecondRun(j, d)), j, u, k, v, delivery);
    ThreeParts(a, Start(a), upload, SecondRun(j, d), Lift(j, delivery));
    run := upload + (SecondRun(j, d) + Lift(j, delivery));
    EndsApart(a, AfterAll(a, Start(a), run), j, After(a.sys, u, delivery), k, v, d, x);
  }

  lemma EndsApart(a: Account, s: Objects, j: ObjectKey, n: Net, k: ObjectKey, m: Net, d: Device, x: Device)
    requires Only(a, s, j, n, k, m) && Quiet(a.sys, n) && Quiet(a.sys, m)
    requires d in a.sys.devices && x in a.sys.devices && d != x
    requires m.rows == Initial(a.sys).rows[d := Some(Row(Entry(1, Live("a")), false))]
    ensures AtRest(a, s) && m.rows[x] == None && !Converged(a.sys, s[k])
  {
    InitialQuiet(a.sys);
    assert EntryOf(m.rows[d]) != EntryOf(m.rows[x]);
  }

  // ---- exactly when

  /** The devices agree on the object whenever the account is at rest. */
  ghost predicate AlwaysAgrees(a: Account, k: ObjectKey)
    requires k in a.keys
  {
    forall run: seq<AccountAction> ::
      AtRest(a, AfterAll(a, Start(a), run)) ==> Converged(a.sys, AfterAll(a, Start(a), run)[k])
  }

  lemma RestsApart(a: Account, s: Objects, k: ObjectKey, n: Net)
    requires AllWellFormed(a, s) && k in a.keys && s[k] == n && SameBut(Start(a), s, k)
    requires Quiet(a.sys, n) && !Converged(a.sys, n)
    ensures AtRest(a, s) && !Converged(a.sys, s[k])
  {
    InitialQuiet(a.sys);
  }

  lemma LiftedFromStart(a: Account, k: ObjectKey, single: seq<Action>) returns (run: seq<AccountAction>, s: Objects)
    requires k in a.keys
    ensures s == AfterAll(a, Start(a), run) && s[k] == After(a.sys, Initial(a.sys), single) && SameBut(Start(a), s, k)
  {
    run := Lift(k, single);
    s := AfterAll(a, Start(a), run);
    Lifted(a, Start(a), k, single);
  }

  /** The diverging run of `Divergence`, in an account of many objects. */
  lemma ForgottenDeletionInAccount(a: Account, k: ObjectKey, d: Device, x: Device) returns (run: seq<AccountAction>, s: Objects)
    requires k in a.keys && d in a.sys.devices && x in a.sys.devices && d != x && !a.sys.cfg(d).persistDeleted
    ensures s == AfterAll(a, Start(a), run) && AtRest(a, s) && !Converged(a.sys, s[k])
  {
    var single, n := ForgottenDeletionDiverges(a.sys, d, x);
    run, s := LiftedFromStart(a, k, single);
    RestsApart(a, s, k, n);
  }

  /** The devices always agree on an object at rest exactly if there is only one device, or they
      all persist deletions and no other object in use has the data id of this one. */
  lemma ObjectAgreesIff(a: Account, k: ObjectKey)
    requires k in a.keys
    ensures AlwaysAgrees(a, k) <==> SingleDevice(a.sys) || (PersistsDeleted(a.sys) && !Collides(a, k))
  {
    if PersistsDeleted(a.sys) && !Collides(a, k) {
      forall run: seq<AccountAction> | AtRest(a, AfterAll(a, Start(a), run))
        ensures Converged(a.sys, AfterAll(a, Start(a), run)[k])
      {
        EveryObjectConverges(a, run, k);
      }
    } else if !SingleDevice(a.sys) {
      var y, z :| y in a.sys.devices && z in a.sys.devices && y != z;
      if Collides(a, k) {
        var j :| j in a.keys && j != k && SameId(a, j, k);
        var run := CollisionDiverges(a, k, j, y, z);
      } else {
        var d :| d in a.sys.devices && !a.sys.cfg(d).persistDeleted;
        var run, s := ForgottenDeletionInAccount(a, k, d, if y == d then z else y);
      }
    }
  }

  /** All objects of an account always agree at rest exactly if there are no objects, or only one
      device, or deletions are persisted and all data ids differ. */
  lemma AccountAgreesIff(a: Account)
    ensures (forall k :: k in a.keys ==> AlwaysAgrees(a, k)) <==>
            a.keys == {} || SingleDevice(a.sys)
            || (PersistsDeleted(a.sys) && forall j, k :: j in a.keys && k in a.keys && SameId(a, j, k) ==> j == k)
  {
    forall k | k in a.keys
      ensures AlwaysAgrees(a, k) <==> SingleDevice(a.sys) || (PersistsDeleted(a.sys) && !Collides(a, k))
    {
      ObjectAgreesIff(a, k);
    }
    if a.keys != {} {
      var k :| k in a.keys;
    }
  }
}
