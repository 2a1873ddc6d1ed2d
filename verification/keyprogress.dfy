/** When an account can go on rotating its key: a key change that is held back for a device
    blocks every further rotation until the device has proved that it knows the key, and there
    are two losses after which it never can.
 */
module KeyProgress {
  import opened Rows
  import opened Keys
  import opened KeyRotation
  import opened KeyAgreement
  import opened KeyResults

  /** The device has imported the newest key, and the server still waits to hear of it. */
  ghost predicate Unheard(s: Net, d: Device) {
    d in s.rings && d in s.server.rows && s.rings[d].active == s.server.count
  }

  ghost predicate MacUnderWay(s: Net, d: Device) {
    exists m :: m in s.messages && m.MacUpdate? && m.d == d && m.index == s.server.count
  }

  /** Word that the proposal of the device for this index is in use. */
  ghost predicate ConfirmationUnderWay(s: Net, d: Device, index: nat) {
    Duplicate(d, index) in s.messages || NewKeyAck(d, index) in s.messages
  }

  /** The device is two keys behind. */
  ghost predicate Overtaken(s: Net, d: Device) {
    d in s.rings && s.rings[d].active + 2 == s.server.count
  }

  /** The server waits for a device that it will never hear of: either it has the newest key and
      its proof is lost, or it is two keys behind and word of the first one is lost. */
  ghost predicate Held(s: Net, d: Device) {
    && d in s.rings && d in s.server.rows && !MacUnderWay(s, d)
    && (s.rings[d].active == s.server.count
        || (Overtaken(s, d) && !ConfirmationUnderWay(s, d, s.server.count - 1)))
  }

  // ---- what is held stays held

  lemma HeldCannotLogIn(s: Net, d: Device, born: map<Key, nat>)
    requires SwapInv(s) && Indexed(s, born) && Held(s, d)
    ensures !Enabled(s, Login(d))
  {
    if Enabled(s, Login(d)) { LoginIndexed(s, d, born); }
  }

  /** While a row waits, no rotation is accepted, and the row goes with a MAC update only. */
  lemma WaitingTables(s: Net, d: Device, a: Action) returns (s': Net)
    requires SwapInv(s) && d in s.server.rows && !MacUnderWay(s, d)
    ensures s' == Apply(s, a) && d in s'.server.rows && s'.server.count == s.server.count
  {
    s' := Apply(s, a);
  }

  /** The active key moves on with a login or a confirmation only. */
  lemma WaitingRing(s: Net, d: Device, a: Action) returns (s': Net)
    requires d in s.rings && !Enabled(s, Login(d))
    requires a.TakeConfirmation? && Enabled(s, a) && a.m.d == d ==> !Activates(s.rings[d], a.m.index)
    ensures s' == Apply(s, a) && d in s'.rings && s'.rings[d].active == s.rings[d].active
  {
    s' := Apply(s, a);
  }

  /** Nobody sends what the device or the server waits for. */
  lemma NoMacSent(s: Net, d: Device, a: Action) returns (s': Net)
    requires d in s.rings && d in s.server.rows && !MacUnderWay(s, d) && !Enabled(s, Login(d))
    ensures s' == Apply(s, a) && (s'.server.count == s.server.count ==> !MacUnderWay(s', d))
  {
    s' := Apply(s, a);
  }

  lemma NoConfirmationSent(s: Net, d: Device, a: Action) returns (s': Net)
    requires SwapInv(s) && d in s.server.rows && s.server.count > 0
    requires !ConfirmationUnderWay(s, d, s.server.count - 1)
    ensures s' == Apply(s, a) && !ConfirmationUnderWay(s', d, s.server.count - 1)
  {
    s' := Apply(s, a);
  }

  lemma HeldStep(s: Net, d: Device, a: Action, born: map<Key, nat>) returns (s': Net)
    requires SwapInv(s) && Indexed(s, born) && Held(s, d)
    ensures s' == Apply(s, a)
    ensures Held(s', d) && s'.server.count == s.server.count && s'.rings[d].active == s.rings[d].active
  {
    HeldCannotLogIn(s, d, born);
    s' := WaitingTables(s, d, a);
    if a.TakeConfirmation? && Enabled(s, a) && a.m.d == d {
      assert a.m == Duplicate(d, a.m.index) || a.m == NewKeyAck(d, a.m.index);
    }
    var _ := WaitingRing(s, d, a);
    var _ := NoMacSent(s, d, a);
    if s.rings[d].active != s.server.count {
      var _ := NoConfirmationSent(s, d, a);
    }
  }

  lemma {:induction false} HeldForever(s: Net, d: Device, run: seq<Action>, born: map<Key, nat>) returns (s': Net)
    requires SwapInv(s) && Indexed(s, born) && Held(s, d)
    ensures s' == After(s, run)
    ensures Held(s', d) && s'.server.count == s.server.count && s'.rings[d].active == s.rings[d].active
    decreases |run|
  {
    if run == [] {
      s' := s;
    } else {
      var s1 := HeldStep(s, d, run[0], born);
      StepKeepsSwap(s, run[0]);
      StepKeepsIndexed(s, run[0], born);
      s' := HeldForever(s1, d, run[1..], NextBorn(s, run[0], born));
    }
  }

  /** What every reachable state has. */
  lemma Reachable(s0: Net, run: seq<Action>) returns (s: Net, born: map<Key, nat>)
    requires IsInitial(s0)
    ensures s == After(s0, run) && SwapInv(s) && Indexed(s, born)
  {
    s := After(s0, run);
    assert SwapInv(s0);
    RunKeepsSwap(s0, run);
    InitialIndexed(s0);
    RunKeepsIndexed(s0, run, map[s0.history[s0.server.count] := s0.server.count]);
    born :| Indexed(s, born);
  }

  // ---- a lost MAC update

  lemma MacUpdateHeard(s: Net, d: Device) returns (run: seq<Action>)
    requires SwapInv(s) && d in s.server.rows && MacUnderWay(s, d)
    ensures RaceFree(s, run) && After(s, run) == s.(server := After(s, run).server)
    ensures After(s, run).server.rows == s.server.rows - {d} && After(s, run).server.count == s.server.count
  {
    var m :| m in s.messages && m.MacUpdate? && m.d == d && m.index == s.server.count;
    OneStep(s, ServeMac(m));
    run := [ServeMac(m)];
  }

  /** A device that imported the newest key verifies the next welcome under that key, but the
      key change held back for it is vouched for by the one before.  So if its MAC update is
      lost it cannot log in again, and the account never rotates again; the row goes away in
      some continuation exactly if a MAC update is still under way. */
  lemma LostMacUpdateBlocksForever(s0: Net, run: seq<Action>, d: Device)
    requires IsInitial(s0) && Unheard(After(s0, run), d)
    ensures
      var s := After(s0, run);
      && ((exists more :: d !in After(s, more).server.rows) <==> MacUnderWay(s, d))
      && (!MacUnderWay(s, d) ==> forall more :: After(s, more).server.count == s.server.count)
  {
    var s, born := Reachable(s0, run);
    if MacUnderWay(s, d) {
      var more := MacUpdateHeard(s, d);
      assert d !in After(s, more).server.rows;
    } else {
      forall more ensures d in After(s, more).server.rows && After(s, more).server.count == s.server.count {
        var s' := HeldForever(s, d, more, born);
      }
    }
  }

  // ---- a device that was overtaken

  /** A device whose rotation was accepted but not confirmed before the next rotation was accepted
      cannot log in any more.  It moves on in some continuation exactly if the confirmation is
      still under way; proposing again does not help. */
  lemma OvertakenRecoversIff(s0: Net, run: seq<Action>, d: Device)
    requires IsInitial(s0) && RaceFree(s0, run) && Overtaken(After(s0, run), d)
    ensures
      var s := After(s0, run);
      && s.server.count - 1 < |s.history| && s.history[s.server.count - 1].creator == d && d in s.rings
      && d in s.server.rows && !WelcomeAccepted(s.rings[d], d, s.server.rows[d])
      && ((exists more :: MovesOnFrom(s, d, After(s, more))) <==> ConfirmationUnderWay(s, d, s.server.count - 1))
  {
    var s, born := Reachable(s0, run);
    OkAfter(s0, run, d);
    OvertakenRow(s, d);
    OvertakenMovesIff(s, d, born);
  }

  lemma OvertakenMovesIff(s: Net, d: Device, born: map<Key, nat>)
    requires SwapInv(s) && Indexed(s, born) && Overtaken(s, d) && d in s.server.rows && !MacUnderWay(s, d)
    requires s.server.rows[d].index == s.server.count && Activates(s.rings[d], s.server.count - 1)
    ensures (exists more :: MovesOnFrom(s, d, After(s, more))) <==> ConfirmationUnderWay(s, d, s.server.count - 1)
  {
    if ConfirmationUnderWay(s, d, s.server.count - 1) {
      var more, s' := OvertakenConfirmed(s, d);
      assert MovesOnFrom(s, d, After(s, more));
    } else {
      forall more ensures !MovesOnFrom(s, d, After(s, more)) {
        var s' := HeldForever(s, d, more, born);
      }
    }
  }

  ghost predicate MovesOnFrom(s: Net, d: Device, s': Net)
    requires d in s.rings
  {
    d in s'.rings && s'.rings[d].active > s.rings[d].active
  }

  /** What the invariant says of one device. */
  ghost predicate DeviceOk(s: Net, d: Device) {
    && d in s.rings && |s.history| == s.server.count + 1 && HistoryOk(s) && RingAgrees(s, d, s.rings[d])
    && (d in s.server.rows ==> s.server.rows[d].index == s.server.count && RowOk(s, d, s.server.rows[d]))
    && (Behind(s, d) ==> d in s.server.rows)
    && (MacUnderWay(s, d) ==> s.rings[d].active == s.server.count)
  }

  lemma OkDevice(s: Net, d: Device)
    requires SwapInv(s) && HistoryOk(s) && TablesOk(s) && RingsOk(s) && MessagesOk(s) && d in s.rings
    ensures DeviceOk(s, d)
  {
    assert RingAgrees(s, d, s.rings[d]);
    if MacUnderWay(s, d) {
      var m :| m in s.messages && m.MacUpdate? && m.d == d && m.index == s.server.count;
      MacOfOkRing(s, m);
    }
  }

  lemma MacOfOkRing(s: Net, m: Message)
    requires |s.history| == s.server.count + 1 && MessagesOk(s) && m in s.messages && m.MacUpdate?
    requires m.index == s.server.count && m.d in s.rings && RingAgrees(s, m.d, s.rings[m.d])
    ensures s.rings[m.d].active == s.server.count
  {
    assert MessageOk(s, m);
  }

  lemma OkAfter(s0: Net, run: seq<Action>, d: Device)
    requires IsInitial(s0) && RaceFree(s0, run) && d in After(s0, run).rings
    ensures DeviceOk(After(s0, run), d)
  {
    InitialOk(s0);
    RunKeepsOk(s0, run);
    OkDevice(After(s0, run), d);
  }

  lemma OvertakenRow(s: Net, d: Device)
    requires DeviceOk(s, d) && Overtaken(s, d)
    ensures d in s.server.rows && s.history[s.server.count - 1].creator == d && Activates(s.rings[d], s.server.count - 1)
    ensures s.server.rows[d].index == s.server.count && !WelcomeAccepted(s.rings[d], d, s.server.rows[d])
    ensures !MacUnderWay(s, d)
  {
    assert s.history[s.rings[d].active] != s.history[s.server.count - 1];
  }

  lemma OvertakenConfirmed(s: Net, d: Device) returns (run: seq<Action>, s': Net)
    requires d in s.rings && d in s.server.rows && s.server.rows[d].index == s.server.count && s.server.count > 0
    requires Activates(s.rings[d], s.server.count - 1) && ConfirmationUnderWay(s, d, s.server.count - 1)
    ensures s' == After(s, run) && RaceFree(s, run) && s'.rings.Keys == s.rings.Keys
    ensures s' == s.(rings := s.rings[d := s'.rings[d]]) && s'.rings[d].active == s.server.count - 1
    ensures s'.rings[d] == Activated(s.rings[d], s.server.count - 1)
  {
    var n := s.server.count - 1;
    var m := if Duplicate(d, n) in s.messages then Duplicate(d, n) else NewKeyAck(d, n);
    CleanedRing(s.rings[d].(active := n, proposal := None));
    OneStep(s, TakeConfirmation(m));
    run := [TakeConfirmation(m)];
    s' := After(s, run);
  }

  // ---- clearing what is held back

  lemma TwoRuns(s: Net, run: seq<Action>, s1: Net, more: seq<Action>, s': Net) returns (all: seq<Action>)
    requires s1 == After(s, run) && s' == After(s1, more) && RaceFree(s, run) && RaceFree(s1, more)
    ensures all == run + more && s' == After(s, all) && RaceFree(s, all)
  {
    AfterCat(s, run, more);
    RaceFreeCat(s, run, more);
    all := run + more;
  }

  /** The server can still hear of the device. */
  ghost predicate Recoverable(s: Net, d: Device) {
    && d in s.rings
    && (MacUnderWay(s, d) || s.rings[d].active + 1 == s.server.count
        || (Overtaken(s, d) && ConfirmationUnderWay(s, d, s.server.count - 1)))
  }

  lemma HeldOrRecoverable(s: Net, d: Device)
    requires DeviceOk(s, d) && d in s.server.rows && !Recoverable(s, d)
    ensures Held(s, d)
  {
    var i := s.server.count - 1;
    assert s.rings[d].active < i ==> s.history[i].creator == d && i == s.rings[d].active + 1;
  }

  /** The row of `d` is gone, its key is the newest, and nothing else has changed but MAC updates
      of `d`. */
  ghost predicate Cleared(s: Net, d: Device, s': Net) {
    && d in s.rings && s'.rings.Keys == s.rings.Keys
    && (forall x :: x in s.rings && x != d ==> s'.rings[x] == s.rings[x])
    && s'.rings[d].active == s.server.count == s'.server.count && RingAgrees(s, d, s'.rings[d])
    && s'.server.rows == s.server.rows - {d} && s'.history == s.history && s'.nonce == s.nonce
    && s.messages <= s'.messages && forall m :: m in s'.messages && m !in s.messages ==> m.MacUpdate? && m.d == d
  }

  lemma LogsIn(s: Net, d: Device) returns (s': Net, m: Message)
    requires DeviceOk(s, d) && d in s.server.rows && s.rings[d].active + 1 == s.server.count
    ensures s' == Apply(s, Login(d)) && s'.server == s.server && s'.history == s.history && s'.nonce == s.nonce
    ensures s'.rings == s.rings[d := s'.rings[d]] && s'.rings[d].active == s.server.count
    ensures RingAgrees(s, d, s'.rings[d])
    ensures m.MacUpdate? && m.d == d && m.index == s.server.count && s'.messages == s.messages + {m}
  {
    var row := s.server.rows[d];
    assert WelcomeAccepted(s.rings[d], d, row);
    WelcomeIsNext(s, d, s.rings[d], row);
    s' := Apply(s, Login(d));
    var r' := Imported(s.rings[d], row.index, row.sealed.key);
    m := MacUpdate(d, r'.active, OwnMac(d, r'.keys[r'.active]));
  }

  lemma LogInAndProve(s: Net, d: Device) returns (run: seq<Action>, s': Net)
    requires SwapInv(s) && DeviceOk(s, d) && d in s.server.rows && s.rings[d].active + 1 == s.server.count
    ensures s' == After(s, run) && RaceFree(s, run) && Cleared(s, d, s')
  {
    var s1, m := LogsIn(s, d);
    s' := Apply(s1, ServeMac(m));
    assert s'.server.rows == s.server.rows - {d};
    TwoSafe(s, Login(d), ServeMac(m));
    run := [Login(d), ServeMac(m)];
  }

  lemma ConfirmLogInAndProve(s: Net, d: Device) returns (run: seq<Action>, s': Net)
    requires SwapInv(s) && DeviceOk(s, d) && d in s.server.rows && Overtaken(s, d)
    requires ConfirmationUnderWay(s, d, s.server.count - 1)
    ensures s' == After(s, run) && RaceFree(s, run) && Cleared(s, d, s')
  {
    OvertakenRow(s, d);
    ConfirmedRing(s, d, s.server.count - 1);
    var first, s1 := OvertakenConfirmed(s, d);
    StepsKeepSwap(s, first);
    ConfirmedDevice(s, d, first, s1);
    var rest;
    rest, s' := LogInAndProve(s1, d);
    run := TwoRuns(s, first, s1, rest, s');
    ClearedLater(s, d, s1, s');
  }

  lemma StepsKeepSwap(s: Net, run: seq<Action>)
    requires SwapInv(s)
    ensures SwapInv(After(s, run))
  {
    RunKeepsSwap(s, run);
  }

  lemma ConfirmedDevice(s: Net, d: Device, run: seq<Action>, s1: Net)
    requires DeviceOk(s, d) && d in s.server.rows && !MacUnderWay(s, d) && s.server.count > 0
    requires d in s1.rings && s1 == s.(rings := s.rings[d := s1.rings[d]]) && RingAgrees(s, d, s1.rings[d])
    ensures DeviceOk(s1, d)
  {
    assert !MacUnderWay(s1, d);
    assert RingAgrees(s1, d, s1.rings[d]);
  }

  lemma ClearedLater(s: Net, d: Device, s1: Net, s': Net)
    requires d in s.rings && d in s1.rings && s1 == s.(rings := s.rings[d := s1.rings[d]]) && Cleared(s1, d, s')
    ensures Cleared(s, d, s')
  {
    assert RingAgrees(s, d, s'.rings[d]);
  }

  lemma ProvedAlready(s: Net, d: Device) returns (run: seq<Action>, s': Net)
    requires SwapInv(s) && DeviceOk(s, d) && d in s.server.rows && MacUnderWay(s, d)
    ensures s' == After(s, run) && RaceFree(s, run) && Cleared(s, d, s')
  {
    run := MacUpdateHeard(s, d);
    s' := After(s, run);
  }

  lemma ClearOne(s: Net, d: Device) returns (run: seq<Action>, s': Net)
    requires SwapInv(s) && DeviceOk(s, d) && d in s.server.rows && Recoverable(s, d)
    ensures s' == After(s, run) && RaceFree(s, run) && Cleared(s, d, s')
  {
    if MacUnderWay(s, d) {
      run, s' := ProvedAlready(s, d);
    } else if s.rings[d].active + 1 == s.server.count {
      run, s' := LogInAndProve(s, d);
    } else {
      run, s' := ConfirmLogInAndProve(s, d);
    }
  }

  /** Everybody whose row waits can still be heard of. */
  ghost predicate AllRecoverable(s: Net) {
    && |s.history| == s.server.count + 1
    && (forall x :: x in s.rings ==> DeviceOk(s, x))
    && (forall x :: x in s.server.rows ==> Recoverable(s, x))
  }

  lemma OtherStays(s: Net, d: Device, s': Net, x: Device)
    requires Cleared(s, d, s') && DeviceOk(s, x) && x != d && (x in s.server.rows ==> Recoverable(s, x))
    ensures DeviceOk(s', x) && (x in s'.server.rows ==> Recoverable(s', x))
  {
    assert RingAgrees(s', x, s'.rings[x]);
    assert MacUnderWay(s', x) <==> MacUnderWay(s, x);
  }

  lemma ClearedDevice(s: Net, d: Device, s': Net)
    requires Cleared(s, d, s') && |s.history| == s.server.count + 1 && HistoryOk(s)
    ensures DeviceOk(s', d) && d !in s'.server.rows
  {
    assert RingAgrees(s', d, s'.rings[d]);
  }

  lemma ClearedKeepsRecoverable(s: Net, d: Device, s': Net)
    requires AllRecoverable(s) && Cleared(s, d, s')
    ensures AllRecoverable(s')
  {
    assert DeviceOk(s, d);
    ClearedDevice(s, d, s');
    forall x | x in s'.rings && x != d ensures DeviceOk(s', x) && (x in s'.server.rows ==> Recoverable(s', x)) {
      OtherStays(s, d, s', x);
    }
  }

  /** All rows are gone; the devices that had none are as they were. */
  ghost predicate AllCleared(s: Net, s': Net) {
    && s'.rings.Keys == s.rings.Keys && s'.server.rows == map[] && s'.server.count == s.server.count
    && (forall x :: x in s.rings && x !in s.server.rows ==> s'.rings[x] == s.rings[x])
    && (forall x :: x in s.rings && x in s.server.rows ==> s'.rings[x].active == s.server.count)
    && s'.history == s.history && s'.nonce == s.nonce
    && (forall m :: m in s'.messages && m !in s.messages ==> m.MacUpdate?)
  }

  lemma ClearedThenAll(s: Net, d: Device, s1: Net, s': Net)
    requires d in s.server.rows && Cleared(s, d, s1) && AllCleared(s1, s')
    ensures AllCleared(s, s')
  {
    assert d !in s1.server.rows;
  }

  /** The first row. */
  lemma ClearFirst(s: Net) returns (d: Device, run: seq<Action>, s': Net)
    requires SwapInv(s) && AllRecoverable(s) && s.server.rows != map[]
    ensures s' == After(s, run) && RaceFree(s, run) && d in s.server.rows && Cleared(s, d, s')
    ensures SwapInv(s') && AllRecoverable(s')
  {
    d :| d in s.server.rows;
    assert DeviceOk(s, d) && Recoverable(s, d);
    run, s' := ClearOne(s, d);
    StepsKeepSwap(s, run);
    ClearedKeepsRecoverable(s, d, s');
  }

  lemma {:induction false} ClearAll(s: Net) returns (run: seq<Action>, s': Net)
    requires SwapInv(s) && AllRecoverable(s)
    ensures s' == After(s, run) && RaceFree(s, run) && AllCleared(s, s') && SwapInv(s') && AllRecoverable(s')
    decreases s.server.rows.Keys
  {
    if s.server.rows == map[] {
      run, s' := [], s;
    } else {
      var d, first, s1 := ClearFirst(s);
      assert d in s.server.rows.Keys && d !in s1.server.rows.Keys;
      var rest;
      rest, s' := ClearAll(s1);
      run := TwoRuns(s, first, s1, rest, s');
      ClearedThenAll(s, d, s1, s');
    }
  }

  // ---- rotating

  /** One rotation by `d`: it has not heard of it yet. */
  ghost predicate Rotated(s: Net, d: Device, s': Net) {
    && d in s.rings && s'.rings.Keys == s.rings.Keys && s'.rings[d].active == s.rings[d].active
    && (forall x :: x in s.rings && x != d ==> s'.rings[x] == s.rings[x])
    && s'.server.count == s.server.count + 1
    && |s'.history| == |s.history| + 1 && s'.history[|s.history|].creator == d
    && (forall m :: m in s'.messages && m !in s.messages ==>
          m.Propose? || m.DeviceKeys? || m.NewKey? || m == NewKeyAck(d, s'.server.count))
  }

  lemma Rotates(s: Net, d: Device) returns (run: seq<Action>, s': Net)
    requires DeviceOk(s, d) && s.server.rows == map[] && s.rings[d].active == s.server.count
    requires s.server.macs.Keys <= s.rings.Keys
    ensures s' == After(s, run) && RaceFree(s, run) && Rotated(s, d, s')
  {
    var s3 := PreparationWorks(s, d);
    var m := Prepared(s, d);
    s' := Apply(s3, ServeNewKey(m));
    PreparedServed(s, d, s3, s');
    OneStep(s3, ServeNewKey(m));
    run := TwoRuns(s, Preparation(s, d), s3, [ServeNewKey(m)], s');
  }

  lemma PreparedServed(s: Net, d: Device, s3: Net, s': Net)
    requires DeviceOk(s, d) && s.server.rows == map[] && s.rings[d].active == s.server.count && IsPrepared(s, d, s3)
    requires s' == Apply(s3, ServeNewKey(Prepared(s, d)))
    ensures Rotated(s, d, s')
  {
    var m := Prepared(s, d);
    assert m.updates.Keys <= s.rings.Keys;
    assert CanRotate(s3.rings.Keys, s3.server, m.d, m.index, m.updates);
    assert m.cmac.under.creator == d;
  }

  /** With no row waiting a device can rotate, at once or after activating its own key. */
  lemma RotatesLater(s: Net, d: Device) returns (run: seq<Action>, s': Net)
    requires DeviceOk(s, d) && Unconfirmed(s, d) && s.server.rows == map[] && s.server.macs.Keys <= s.rings.Keys
    ensures s' == After(s, run) && RaceFree(s, run) && s'.server.count == s.server.count + 1
  {
    var s1 := ActivatesAgain(s, d);
    var rest;
    rest, s' := Rotates(s1, d);
    run := TwoRuns(s, ProposalAgain(d, s.server.count), s1, rest, s');
  }

  lemma NotBehind(s: Net, d: Device)
    requires DeviceOk(s, d) && d !in s.server.rows
    ensures s.rings[d].active == s.server.count || Unconfirmed(s, d)
  {
    assert !Behind(s, d);
  }

  lemma SomebodyRotates(s: Net, d: Device) returns (run: seq<Action>, s': Net)
    requires DeviceOk(s, d) && s.server.rows == map[] && s.server.macs.Keys <= s.rings.Keys
    ensures s' == After(s, run) && RaceFree(s, run) && s'.server.count == s.server.count + 1
  {
    NotBehind(s, d);
    if s.rings[d].active == s.server.count {
      run, s' := Rotates(s, d);
    } else {
      run, s' := RotatesLater(s, d);
    }
  }

  lemma ActivatesAgain(s: Net, d: Device) returns (s1: Net)
    requires DeviceOk(s, d) && Unconfirmed(s, d) && s.server.rows == map[]
    ensures s1 == After(s, ProposalAgain(d, s.server.count)) && RaceFree(s, ProposalAgain(d, s.server.count))
    ensures s1.server == s.server && s1.rings.Keys == s.rings.Keys && DeviceOk(s1, d) && s1.rings[d].active == s.server.count
  {
    AgainActivates(s, d);
    ConfirmedRing(s, d, s.server.count);
    s1 := After(s, ProposalAgain(d, s.server.count));
    SameHistoryRing(s, s1, d);
  }

  lemma SameHistoryRing(s: Net, s1: Net, d: Device)
    requires DeviceOk(s, d) && d in s1.rings && s1.history == s.history && s1.nonce == s.nonce && s1.server == s.server
    requires s.server.rows == map[] && RingAgrees(s, d, s1.rings[d]) && s1.rings[d].active == s.server.count
    ensures DeviceOk(s1, d)
  {
    assert RingAgrees(s1, d, s1.rings[d]);
  }

  // ---- exactly when

  lemma RecoverableAfter(s0: Net, run: seq<Action>) returns (s: Net)
    requires IsInitial(s0) && RaceFree(s0, run)
    ensures s == After(s0, run) && SwapInv(s) && s.rings.Keys == s0.rings.Keys && s.server.macs.Keys == s.rings.Keys
    ensures |s.history| == s.server.count + 1 && forall x :: x in s.rings ==> DeviceOk(s, x)
  {
    InitialOk(s0);
    RunKeepsOk(s0, run);
    RunKeepsDevices(s0, run);
    s := After(s0, run);
    forall x | x in s.rings ensures DeviceOk(s, x) {
      OkDevice(s, x);
    }
  }

  lemma AllClearedRotates(s: Net, d: Device) returns (run: seq<Action>, s': Net)
    requires SwapInv(s) && AllRecoverable(s) && d in s.rings && s.server.macs.Keys <= s.rings.Keys
    ensures s' == After(s, run) && s'.server.count == s.server.count + 1
  {
    var first, s1 := ClearAll(s);
    MacsStay(s, first);
    var rest;
    assert DeviceOk(s1, d);
    rest, s' := SomebodyRotates(s1, d);
    run := TwoRuns(s, first, s1, rest, s');
  }

  lemma {:induction false} MacsStay(s: Net, run: seq<Action>)
    requires s.server.macs.Keys <= s.rings.Keys && SwapInv(s)
    ensures After(s, run).server.macs.Keys <= After(s, run).rings.Keys
    decreases |run|
  {
    if run != [] {
      MacsStayStep(s, run[0]);
      StepKeepsSwap(s, run[0]);
      MacsStay(Apply(s, run[0]), run[1..]);
    }
  }

  lemma MacsStayStep(s: Net, a: Action)
    requires s.server.macs.Keys <= s.rings.Keys && SwapInv(s)
    ensures Apply(s, a).server.macs.Keys <= Apply(s, a).rings.Keys
  {}

  /** Some continuation rotates the key once more. */
  ghost predicate CanGoOn(s: Net) {
    exists more :: After(s, more).server.count > s.server.count
  }

  lemma RecoverableGoesOn(s: Net, d: Device)
    requires SwapInv(s) && AllRecoverable(s) && d in s.rings && s.server.macs.Keys <= s.rings.Keys
    ensures CanGoOn(s)
  {
    var more, s' := AllClearedRotates(s, d);
    assert After(s, more).server.count > s.server.count;
  }

  lemma HeldEndsIt(s: Net, d: Device, born: map<Key, nat>)
    requires SwapInv(s) && Indexed(s, born) && Held(s, d)
    ensures !CanGoOn(s)
  {
    forall more ensures After(s, more).server.count == s.server.count {
      var s' := HeldForever(s, d, more, born);
    }
  }

  /** The account can go on rotating its key exactly if the server can still hear of every device
      for which it holds a key change back: its proof is under way, it is one key behind, or it is
      two keys behind and word of the first one is under way. */
  lemma AccountRotatesIff(s0: Net, run: seq<Action>)
    requires IsInitial(s0) && RaceFree(s0, run)
    ensures
      var s := After(s0, run);
      CanGoOn(s) <==> forall d :: d in s.server.rows ==> Recoverable(s, d)
  {
    var s := RecoverableAfter(s0, run);
    if d :| d in s.server.rows && !Recoverable(s, d) {
      var _, born := Reachable(s0, run);
      HeldOrRecoverable(s, d);
      HeldEndsIt(s, d, born);
    } else {
      var d :| d in s0.rings;
      RecoverableGoesOn(s, d);
    }
  }

  // ---- both losses happen

  /** The state after one rotation by `a` that nobody has heard of. */
  ghost predicate OneBehind(s: Net, a: Device) {
    && a in s.rings && |s.history| == s.server.count + 1 && s.history[s.server.count].creator == a
    && (forall x :: x in s.rings ==> s.rings[x].active + 1 == s.server.count)
    && (forall m :: m in s.messages ==> !m.MacUpdate? && !m.Duplicate?)
  }

  lemma RotatedFirst(s0: Net, a: Device, s: Net)
    requires s0.server.count == |s0.history| - 1 && s0.messages == {} && Rotated(s0, a, s)
    requires forall x :: x in s0.rings ==> s0.rings[x].active == s0.server.count
    ensures OneBehind(s, a)
  {}

  lemma FirstRotation(s0: Net, a: Device) returns (run: seq<Action>, s: Net)
    requires IsInitial(s0) && a in s0.rings
    ensures s == After(s0, run) && RaceFree(s0, run) && OneBehind(s, a)
  {
    var _ := RecoverableAfter(s0, []);
    run, s := Rotates(s0, a);
    RotatedFirst(s0, a, s);
  }

  /** Everybody else has a row waiting. */
  lemma RowOfOthers(s: Net, a: Device, x: Device)
    requires OneBehind(s, a) && DeviceOk(s, x)
    ensures x == a <==> x !in s.server.rows
  {
    if x != a { assert Behind(s, x); }
  }

  lemma LosesProof(s: Net, a: Device, b: Device) returns (run: seq<Action>, s': Net)
    requires OneBehind(s, a) && DeviceOk(s, b) && a != b
    ensures s' == After(s, run) && RaceFree(s, run) && Unheard(s', b) && !MacUnderWay(s', b)
  {
    RowOfOthers(s, a, b);
    var s1, m := LogsIn(s, b);
    s' := Apply(s1, Lose(m));
    TwoSafe(s, Login(b), Lose(m));
    run := [Login(b), Lose(m)];
  }

  lemma RunToLostProof(s0: Net, a: Device, b: Device) returns (run: seq<Action>, s: Net)
    requires IsInitial(s0) && a in s0.rings && b in s0.rings && a != b
    ensures s == After(s0, run) && RaceFree(s0, run) && Unheard(s, b) && !MacUnderWay(s, b)
  {
    var first, s1 := FirstRotation(s0, a);
    RunKeepsDevices(s0, first);
    OkAfter(s0, first, b);
    var rest;
    rest, s := LosesProof(s1, a, b);
    run := TwoRuns(s0, first, s1, rest, s);
  }

  /** With two devices one rotation and one lost message are enough: `a` rotates, `b` imports
      the key and its MAC update is lost. */
  lemma LostMacUpdateIsReachable(s0: Net, a: Device, b: Device)
    requires IsInitial(s0) && a in s0.rings && b in s0.rings && a != b
    ensures exists run ::
      RaceFree(s0, run) && Unheard(After(s0, run), b) && !MacUnderWay(After(s0, run), b)
  {
    var run, s := RunToLostProof(s0, a, b);
  }

  /** After the first rotation its confirmation is lost. */
  lemma LosesConfirmation(s0: Net, a: Device) returns (run: seq<Action>, s: Net)
    requires IsInitial(s0) && a in s0.rings
    ensures s == After(s0, run) && RaceFree(s0, run) && OneBehind(s, a)
    ensures NewKeyAck(a, s.server.count) !in s.messages
  {
    var first, s1 := FirstRotation(s0, a);
    var m := NewKeyAck(a, s1.server.count);
    s := Apply(s1, Lose(m));
    OneStep(s1, Lose(m));
    run := TwoRuns(s0, first, s1, [Lose(m)], s);
  }

  lemma OneBehindRecoverable(s: Net, a: Device, b: Device)
    requires OneBehind(s, a) && s.server.rows.Keys <= s.rings.Keys && b in s.rings && a != b
    requires forall x :: x in s.rings ==> DeviceOk(s, x)
    ensures AllRecoverable(s) && a !in s.server.rows && b in s.server.rows
  {
    RowOfOthers(s, a, a);
    RowOfOthers(s, a, b);
  }

  lemma ClearedRotates(s: Net, s1: Net, a: Device, b: Device) returns (run: seq<Action>, s': Net)
    requires AllCleared(s, s1) && b in s1.rings && DeviceOk(s1, b) && s1.server.macs.Keys <= s1.rings.Keys && a != b
    requires a in s.rings && a !in s.server.rows && b in s.server.rows && b in s.rings
    requires forall m :: m in s.messages ==> !m.Duplicate? && m != NewKeyAck(a, s.server.count)
    ensures s' == After(s1, run) && RaceFree(s1, run) && s'.server.count == s.server.count + 1
    ensures a in s'.rings && s'.rings[a].active == s.rings[a].active && !ConfirmationUnderWay(s', a, s.server.count)
  {
    run, s' := Rotates(s1, b);
  }

  lemma OthersRotate(s: Net, a: Device, b: Device) returns (run: seq<Action>, s': Net)
    requires SwapInv(s) && AllRecoverable(s) && s.server.macs.Keys <= s.rings.Keys && a != b
    requires a in s.rings && a !in s.server.rows && b in s.server.rows && b in s.rings
    requires forall m :: m in s.messages ==> !m.Duplicate? && m != NewKeyAck(a, s.server.count)
    ensures s' == After(s, run) && RaceFree(s, run) && s'.server.count == s.server.count + 1
    ensures a in s'.rings && s'.rings[a].active == s.rings[a].active && !ConfirmationUnderWay(s', a, s.server.count)
  {
    var first, s1 := ClearAll(s);
    MacsStay(s, first);
    var rest;
    rest, s' := ClearedRotates(s, s1, a, b);
    run := TwoRuns(s, first, s1, rest, s');
  }

  lemma OvertakenFrom(s: Net, a: Device, b: Device) returns (run: seq<Action>, s': Net)
    requires OneBehind(s, a) && NewKeyAck(a, s.server.count) !in s.messages && b in s.rings && a != b
    requires SwapInv(s) && s.server.macs.Keys == s.rings.Keys && forall x :: x in s.rings ==> DeviceOk(s, x)
    ensures s' == After(s, run) && RaceFree(s, run)
    ensures Overtaken(s', a) && !ConfirmationUnderWay(s', a, s'.server.count - 1)
  {
    OneBehindRecoverable(s, a, b);
    run, s' := OthersRotate(s, a, b);
    StaysOvertaken(s, s', a);
  }

  lemma StaysOvertaken(s: Net, s': Net, a: Device)
    requires a in s.rings && s.rings[a].active + 1 == s.server.count && s'.server.count == s.server.count + 1
    requires a in s'.rings && s'.rings[a].active == s.rings[a].active && !ConfirmationUnderWay(s', a, s.server.count)
    ensures Overtaken(s', a) && !ConfirmationUnderWay(s', a, s'.server.count - 1)
  {}

  lemma OvertakenAfter(s0: Net, first: seq<Action>, s: Net, a: Device, b: Device) returns (run: seq<Action>, s': Net)
    requires IsInitial(s0) && RaceFree(s0, first) && s == After(s0, first) && b in s0.rings && a != b
    requires OneBehind(s, a) && NewKeyAck(a, s.server.count) !in s.messages
    ensures s' == After(s, run) && RaceFree(s, run)
    ensures Overtaken(s', a) && !ConfirmationUnderWay(s', a, s'.server.count - 1)
  {
    var s1 := RecoverableAfter(s0, first);
    run, s' := OvertakenFrom(s1, a, b);
  }

  lemma RunToOvertaking(s0: Net, a: Device, b: Device) returns (run: seq<Action>, s: Net)
    requires IsInitial(s0) && a in s0.rings && b in s0.rings && a != b
    ensures s == After(s0, run) && RaceFree(s0, run) && Overtaken(s, a) && !ConfirmationUnderWay(s, a, s.server.count - 1)
  {
    var first, s1 := LosesConfirmation(s0, a);
    var rest;
    rest, s := OvertakenAfter(s0, first, s1, a, b);
    run := TwoRuns(s0, first, s1, rest, s);
  }

  /** Two rotations and one lost message: `a` rotates and its confirmation is lost, the others
      prove their key and `b` rotates; `a` is overtaken and never moves on. */
  lemma OvertakingIsReachable(s0: Net, a: Device, b: Device)
    requires IsInitial(s0) && a in s0.rings && b in s0.rings && a != b
    ensures exists run ::
      && RaceFree(s0, run) && Overtaken(After(s0, run), a)
      && !ConfirmationUnderWay(After(s0, run), a, After(s0, run).server.count - 1)
  {
    var run, s := RunToOvertaking(s0, a, b);
  }

  // ---- what a welcome brings

  /** The row waiting for `d` is the newest key, sealed for `d` and vouched for by the one before,
      and `d` accepts it exactly if that one is its active key. */
  ghost predicate BringsNewest(s: Net, d: Device) {
    && d in s.rings && d in s.server.rows && 1 <= s.server.count < |s.history|
    && var row, n := s.server.rows[d], s.server.count;
       && row.index == n && s.history[n].creator != d
       && row.sealed == SealedKey(d, s.history[n]) && row.mac == Mac(s.history[n - 1], NewKeyFor(n, d, row.sealed))
       && (WelcomeAccepted(s.rings[d], d, row) <==> s.rings[d].active + 1 == n)
  }

  lemma NewestRow(s: Net, d: Device)
    requires DeviceOk(s, d) && d in s.server.rows
    ensures BringsNewest(s, d)
  {
    assert s.rings[d].keys[s.rings[d].active] == s.history[s.rings[d].active];
  }

  lemma RowIsOfDevice(s0: Net, run: seq<Action>, d: Device)
    requires IsInitial(s0) && d in After(s0, run).server.rows
    ensures d in After(s0, run).rings
  {
    var s, born := Reachable(s0, run);
  }

  /** After any run without the race, what a welcome brings is the newest key. */
  lemma WelcomeBringsNewestKey(s0: Net, run: seq<Action>, d: Device)
    requires IsInitial(s0) && RaceFree(s0, run) && d in After(s0, run).server.rows
    ensures BringsNewest(After(s0, run), d)
  {
    RowIsOfDevice(s0, run, d);
    OkAfter(s0, run, d);
    NewestRow(After(s0, run), d);
  }
}
