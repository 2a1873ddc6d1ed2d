/** What the key rotation promises over whole runs: agreement and the race that ends it, the
    recovery of a lost confirmation, and the window of kept keys. */
module KeyResults {
  import opened Rows
  import opened Keys
  import opened KeyRotation
  import opened KeyAgreement

  // ---- agreement

  /** Every device uses the key that the server's rotation to its active index introduced. */
  ghost predicate Agreement(s: Net) {
    forall d :: d in s.rings ==> UsesHistory(s, s.rings[d])
  }

  ghost predicate UsesHistory(s: Net, r: Ring) {
    r.active < |s.history| && r.active in r.keys && r.keys[r.active] == s.history[r.active]
  }

  ghost predicate AgreementThroughout(s: Net, run: seq<Action>)
    decreases |run|
  {
    Agreement(s) && (run == [] || AgreementThroughout(Apply(s, run[0]), run[1..]))
  }

  lemma OkAgrees(s: Net)
    requires RingsOk(s)
    ensures Agreement(s)
  {
    forall d | d in s.rings ensures UsesHistory(s, s.rings[d]) {
      assert RingAgrees(s, d, s.rings[d]);
    }
  }

  /** Two devices with the same active index have the same active key, and so with every old
      key that both of them still have. */
  lemma DevicesAgree(s0: Net, run: seq<Action>, d: Device, e: Device, i: nat)
    requires IsInitial(s0) && RaceFree(s0, run)
    requires d in s0.rings && e in s0.rings
    ensures
      var s := After(s0, run);
      && s.rings.Keys == s0.rings.Keys && s.rings[d].active < |s.history|
      && s.rings[d].active in s.rings[d].keys
      && (i in s.rings[d].keys && i <= s.rings[d].active && i in s.rings[e].keys && i <= s.rings[e].active ==>
            s.rings[d].keys[i] == s.rings[e].keys[i] == s.history[i])
  {
    InitialOk(s0);
    RunKeepsOk(s0, run);
    RunKeepsDevices(s0, run);
    var s := After(s0, run);
    assert RingAgrees(s, d, s.rings[d]) && RingAgrees(s, e, s.rings[e]);
  }

  lemma {:induction false} RunKeepsDevices(s: Net, run: seq<Action>)
    ensures After(s, run).rings.Keys == s.rings.Keys
    decreases |run|
  {
    if run != [] { RunKeepsDevices(Apply(s, run[0]), run[1..]); }
  }

  /** The race makes the device use a key that nobody else has. */
  lemma RaceBreaks(s: Net, m: Message)
    requires RingsOk(s) && TablesOk(s) && Races(s, TakeConfirmation(m))
    ensures !Agreement(Apply(s, TakeConfirmation(m)))
  {
    RowIsOk(s, m.d);
    WrongKeyActivated(s, m.d, m.index);
    var s' := Apply(s, TakeConfirmation(m));
    assert !UsesHistory(s', s'.rings[m.d]);
  }

  /** The server's key of that index is somebody else's. */
  lemma WrongKeyActivated(s: Net, d: Device, index: nat)
    requires d in s.server.rows && d in s.rings && RowOk(s, d, s.server.rows[d]) && RingAgrees(s, d, s.rings[d])
    requires Activates(s.rings[d], index) && s.server.rows[d].index == index
    ensures !UsesHistory(s, Activated(s.rings[d], index))
  {
    CleanedRing(s.rings[d].(active := index, proposal := None));
  }

  /** From a good state, a single step ends the agreement exactly if it is the race. */
  lemma StepBreaksAgreementIff(s: Net, a: Action)
    requires Ok(s)
    ensures Agreement(Apply(s, a)) <==> !Races(s, a)
  {
    if Races(s, a) {
      RaceBreaks(s, a.m);
    } else {
      StepKeepsOk(s, a);
      OkAgrees(Apply(s, a));
    }
  }

  lemma {:induction false} AgreesUntilRace(s: Net, run: seq<Action>)
    requires Ok(s)
    ensures AgreementThroughout(s, run) <==> RaceFree(s, run)
    decreases |run|
  {
    OkAgrees(s);
    if run != [] {
      var s' := Apply(s, run[0]);
      StepBreaksAgreementIff(s, run[0]);
      if !Races(s, run[0]) {
        StepKeepsOk(s, run[0]);
        AgreesUntilRace(s', run[1..]);
      }
    }
  }

  /** All devices agree with the server all the time exactly in the runs without the race. */
  lemma AgreementIff(s0: Net, run: seq<Action>)
    requires IsInitial(s0)
    ensures AgreementThroughout(s0, run) <==> RaceFree(s0, run)
  {
    InitialOk(s0);
    AgreesUntilRace(s0, run);
  }

  // ---- the race can happen

  lemma {:induction false} AfterCat(s: Net, run: seq<Action>, more: seq<Action>)
    ensures After(s, run + more) == After(After(s, run), more)
    decreases |run|
  {
    if run == [] {
      assert run + more == more;
    } else {
      assert (run + more)[1..] == run[1..] + more;
      AfterCat(Apply(s, run[0]), run[1..], more);
    }
  }

  lemma OneStep(s: Net, a: Action)
    ensures After(s, [a]) == Apply(s, a)
    ensures RaceFree(s, [a]) <==> !Races(s, a)
  {
    assert [a][1..] == [];
  }

  lemma TwoSteps(s: Net, a: Action, b: Action)
    ensures After(s, [a, b]) == Apply(Apply(s, a), b)
    ensures RaceFree(s, [a, b]) <==> !Races(s, a) && !Races(Apply(s, a), b)
  {
    assert [a, b][1..] == [b];
    OneStep(Apply(s, a), b);
  }

  lemma ThreeSteps(s: Net, a: Action, b: Action, c: Action)
    ensures After(s, [a, b, c]) == Apply(Apply(Apply(s, a), b), c)
    ensures RaceFree(s, [a, b, c]) <==> !Races(s, a) && !Races(Apply(s, a), b) && !Races(Apply(Apply(s, a), b), c)
  {
    assert [a, b, c][1..] == [b, c];
    TwoSteps(Apply(s, a), b, c);
  }

  /** A device that may propose gets its answer and sends a new key. */
  ghost function OthersMacs(s: Net, d: Device): map<Device, Mac> {
    map x | x in s.server.macs && x in s.rings && x != d :: s.server.macs[x]
  }

  ghost function Preparation(s: Net, d: Device): seq<Action>
    requires d in s.rings
  {
    var n := s.server.count + 1;
    [SendProposal(d), ServeProposal(Propose(d, n)), TakeDeviceKeys(DeviceKeys(d, n, OthersMacs(s, d)))]
  }

  /** The new-key message that follows. */
  ghost function Prepared(s: Net, d: Device): Message
    requires d in s.rings && s.server.count in s.rings[d].keys
  {
    var n, r' := s.server.count + 1, Generated(s.rings[d], Key(d, s.nonce));
    var key := if n in r'.keys then r'.keys[n] else Key(d, s.nonce);
    NewKey(d, n, OwnMac(d, key), UpdatesFor(OthersMacs(s, d), n, s.rings[d].keys[s.server.count], key))
  }

  /** The state after the preparation. */
  ghost predicate IsPrepared(s: Net, d: Device, s': Net)
    requires d in s.rings && s.server.count in s.rings[d].keys
  {
    var n := s.server.count + 1;
    && s'.server == s.server && s'.nonce == s.nonce + 1 && s'.history == s.history
    && s'.rings == s.rings[d := Generated(s.rings[d], Key(d, s.nonce))]
    && s'.messages == s.messages + {Propose(d, n), DeviceKeys(d, n, OthersMacs(s, d)), Prepared(s, d)}
  }

  lemma ProposalAccepted(s: Net, d: Device) returns (s1: Net, s2: Net)
    requires d in s.rings && s.server.rows == map[] && s.rings[d].active == s.server.count
    ensures
      var n := s.server.count + 1;
      && s1 == Apply(s, SendProposal(d)) && s2 == Apply(s1, ServeProposal(Propose(d, n)))
      && s2 == s.(messages := s.messages + {Propose(d, n)} + {DeviceKeys(d, n, OthersMacs(s, d))})
  {
    assert s.server.rows.Keys * s.rings.Keys == {};
    assert Answered(s.rings.Keys, s.server, d, s.server.count + 1) == AnswerDevices(OthersMacs(s, d));
    s1 := Apply(s, SendProposal(d));
    s2 := Apply(s1, ServeProposal(Propose(d, s.server.count + 1)));
  }

  lemma KeysTaken(s: Net, s2: Net, d: Device) returns (s3: Net)
    requires d in s.rings && s.rings[d].active == s.server.count && RingOk(s.rings[d])
    requires var n := s.server.count + 1;
      s2 == s.(messages := s.messages + {Propose(d, n)} + {DeviceKeys(d, n, OthersMacs(s, d))})
    ensures s3 == Apply(s2, TakeDeviceKeys(DeviceKeys(d, s.server.count + 1, OthersMacs(s, d)))) && IsPrepared(s, d, s3)
  {
    var m := DeviceKeys(d, s.server.count + 1, OthersMacs(s, d));
    assert Enabled(s2, TakeDeviceKeys(m));
    s3 := DeviceKeysTaken(s2, m);
    assert s3.messages == s2.messages + {Prepared(s, d)};
    assert s3.messages == s.messages + {Propose(d, s.server.count + 1), m, Prepared(s, d)};
  }

  lemma PreparationSteps(s: Net, d: Device) returns (s1: Net, s2: Net, s3: Net)
    requires d in s.rings && s.server.rows == map[]
    requires s.rings[d].active == s.server.count && RingOk(s.rings[d])
    ensures
      var n := s.server.count + 1;
      && s1 == Apply(s, SendProposal(d)) && s2 == Apply(s1, ServeProposal(Propose(d, n)))
      && s3 == Apply(s2, TakeDeviceKeys(DeviceKeys(d, n, OthersMacs(s, d)))) && IsPrepared(s, d, s3)
  {
    s1, s2 := ProposalAccepted(s, d);
    s3 := KeysTaken(s, s2, d);
  }

  lemma PreparationWorks(s: Net, d: Device) returns (s3: Net)
    requires d in s.rings && s.server.rows == map[]
    requires s.rings[d].active == s.server.count && RingOk(s.rings[d])
    ensures s3 == After(s, Preparation(s, d)) && IsPrepared(s, d, s3) && RaceFree(s, Preparation(s, d))
  {
    var s1, s2;
    s1, s2, s3 := PreparationSteps(s, d);
    var run := Preparation(s, d);
    ThreeSafe(s, run[0], run[1], run[2], s1, s2, s3);
    assert run == [run[0], run[1], run[2]];
  }

  /** Only confirmations race. */
  lemma ThreeSafe(s: Net, a: Action, b: Action, c: Action, s1: Net, s2: Net, s3: Net)
    requires s1 == Apply(s, a) && s2 == Apply(s1, b) && s3 == Apply(s2, c)
    requires !a.TakeConfirmation? && !b.TakeConfirmation? && !Races(s2, c)
    ensures After(s, [a, b, c]) == s3 && RaceFree(s, [a, b, c])
  {
    ThreeSteps(s, a, b, c);
  }

  lemma TwoSafe(s: Net, a: Action, b: Action)
    requires !a.TakeConfirmation? && !b.TakeConfirmation?
    ensures After(s, [a, b]) == Apply(Apply(s, a), b) && RaceFree(s, [a, b])
  {
    TwoSteps(s, a, b);
  }

  lemma {:induction false} RaceFreeCat(s: Net, run: seq<Action>, more: seq<Action>)
    requires RaceFree(s, run) && RaceFree(After(s, run), more)
    ensures RaceFree(s, run + more)
    decreases |run|
  {
    if run == [] {
      assert run + more == more;
    } else {
      assert (run + more)[1..] == run[1..] + more;
      RaceFreeCat(Apply(s, run[0]), run[1..], more);
    }
  }

  /** What an accepted rotation leaves for a device that it names. */
  lemma RotatedFor(s: Net, m: Message, b: Device)
    requires m.NewKey? && m in s.messages && m.d in s.rings && b in m.updates
    requires m.index == s.server.count + 1 && m.updates.Keys <= s.rings.Keys && s.server.rows == map[]
    ensures
      var s' := Apply(s, ServeNewKey(m));
      && s' == NewKeyServed(s, m) && CanRotate(s.rings.Keys, s.server, m.d, m.index, m.updates)
      && s'.rings == s.rings && s'.server.count == m.index && s'.server.rows == RowsOf(m.index, m.updates)
      && s'.messages == s.messages + {NewKeyAck(m.d, m.index)} && s'.history == s.history + [m.cmac.under]
      && b in s'.server.rows && s'.server.rows[b].index == m.index
  {
    assert s.server.rows + RowsOf(m.index, m.updates) == RowsOf(m.index, m.updates);
  }

  /** `a` rotates while the proposal of `b` is waiting to be answered. */
  lemma Overtakes(s: Net, m: Message, b: Device)
    requires b in s.rings && m.d in s.rings && b != m.d && m.NewKey? && m in s.messages && b in m.updates
    requires m.index == s.server.count + 1 && m.updates.Keys <= s.rings.Keys && s.server.rows == map[]
    requires Propose(b, m.index) in s.messages && Activates(s.rings[b], m.index)
    ensures
      var run := [ServeNewKey(m), ServeProposal(Propose(b, m.index))];
      RaceFree(s, run) && Races(After(s, run), TakeConfirmation(Duplicate(b, m.index)))
  {
    var s1 := Apply(s, ServeNewKey(m));
    RotatedFor(s, m, b);
    assert s1.server.count == m.index;
    var s2 := Apply(s1, ServeProposal(Propose(b, m.index)));
    assert s2 == s1.(messages := s1.messages + {Duplicate(b, m.index)});
    TwoSafe(s, ServeNewKey(m), ServeProposal(Propose(b, m.index)));
  }

  /** The run up to the race: both devices prepare a key, `a` rotates, and the answer to the
      proposal of `b` is under way. */
  ghost function OvertakingRun(s0: Net, a: Device, b: Device): seq<Action>
    requires IsInitial(s0) && a in s0.rings && b in s0.rings
  {
    var s3 := After(s0, Preparation(s0, b));
    if a in s3.rings && s3.server.count in s3.rings[a].keys then
      Preparation(s0, b) + (Preparation(s3, a) + [ServeNewKey(Prepared(s3, a)), ServeProposal(Propose(b, s0.server.count + 1))])
    else []
  }

  /** Both devices have prepared a key. */
  lemma BothPrepared(s0: Net, a: Device, b: Device)
    requires IsInitial(s0) && a in s0.rings && b in s0.rings && a != b
    ensures
      var s3 := After(s0, Preparation(s0, b));
      && IsPrepared(s0, b, s3) && RaceFree(s0, Preparation(s0, b))
      && a in s3.rings && s3.server.count in s3.rings[a].keys
      && IsPrepared(s3, a, After(s3, Preparation(s3, a))) && RaceFree(s3, Preparation(s3, a))
      && b in Prepared(s3, a).updates
  {
    var s3 := PreparationWorks(s0, b);
    var s6 := PreparationWorks(s3, a);
  }

  lemma OvertakingRunRaces(s0: Net, a: Device, b: Device)
    requires IsInitial(s0) && a in s0.rings && b in s0.rings && a != b
    ensures
      var run := OvertakingRun(s0, a, b);
      RaceFree(s0, run) && Races(After(s0, run), TakeConfirmation(Duplicate(b, s0.server.count + 1)))
  {
    BothPrepared(s0, a, b);
    var first := Preparation(s0, b);
    var s3 := After(s0, first);
    var second, m := Preparation(s3, a), Prepared(s3, a);
    var third := [ServeNewKey(m), ServeProposal(Propose(b, s0.server.count + 1))];
    OvertakesNext(s0, s3, After(s3, second), a, b);
    AfterCat(s3, second, third);
    AfterCat(s0, first, second + third);
    RaceFreeCat(s3, second, third);
    RaceFreeCat(s0, first, second + third);
  }

  lemma OvertakesNext(s0: Net, s3: Net, s6: Net, a: Device, b: Device)
    requires IsInitial(s0) && a in s0.rings && b in s0.rings && a != b && IsPrepared(s0, b, s3)
    requires a in s3.rings && s3.server.count in s3.rings[a].keys && IsPrepared(s3, a, s6)
    ensures
      var n, m := s0.server.count + 1, Prepared(s3, a);
      var run := [ServeNewKey(m), ServeProposal(Propose(b, n))];
      RaceFree(s6, run) && Races(After(s6, run), TakeConfirmation(Duplicate(b, n)))
  {
    Overtakes(s6, Prepared(s3, a), b);
  }

  /** With two devices the race is a matter of timing: after a run in which a proposal of `b` is
      overtaken by a rotation of `a`, the answer to that proposal ends the agreement. */
  lemma RaceIsReachable(s0: Net, a: Device, b: Device)
    requires IsInitial(s0) && a in s0.rings && b in s0.rings && a != b
    ensures exists run, m :: RaceFree(s0, run) && Races(After(s0, run), TakeConfirmation(m))
                             && !Agreement(Apply(After(s0, run), TakeConfirmation(m)))
  {
    var run := OvertakingRun(s0, a, b);
    OvertakingRunRaces(s0, a, b);
    InitialOk(s0);
    RunKeepsOk(s0, run);
    RaceBreaks(After(s0, run), Duplicate(b, s0.server.count + 1));
  }

  // ---- a lost confirmation

  ghost function ProposalAgain(d: Device, n: nat): seq<Action> {
    [SendProposal(d), ServeProposal(Propose(d, n)), TakeConfirmation(Duplicate(d, n))]
  }

  /** The rotation to the newest key was the device's, but the device has not heard so. */
  ghost predicate Unconfirmed(s: Net, d: Device) {
    && d in s.rings && s.server.count < |s.history|
    && s.rings[d].active + 1 == s.server.count && s.history[s.server.count].creator == d
  }

  lemma DuplicateAnswered(s: Net, d: Device) returns (s1: Net, s2: Net)
    requires d in s.rings && s.rings[d].active + 1 == s.server.count
    ensures
      var n := s.server.count;
      && s1 == Apply(s, SendProposal(d)) && s2 == Apply(s1, ServeProposal(Propose(d, n)))
      && s2 == s.(messages := s.messages + {Propose(d, n)} + {Duplicate(d, n)})
  {
    s1 := Apply(s, SendProposal(d));
    s2 := Apply(s1, ServeProposal(Propose(d, s.server.count)));
  }

  lemma DuplicateTaken(s: Net, d: Device) returns (s': Net)
    requires d in s.rings && d !in s.server.rows && Duplicate(d, s.server.count) in s.messages
    ensures
      var a := TakeConfirmation(Duplicate(d, s.server.count));
      s' == Apply(s, a) && !Races(s, a) && s' == s.(rings := s.rings[d := Activated(s.rings[d], s.server.count)])
  {
    s' := Apply(s, TakeConfirmation(Duplicate(d, s.server.count)));
  }

  lemma AgainActivates(s: Net, d: Device)
    requires |s.history| == s.server.count + 1 && Unconfirmed(s, d) && RingAgrees(s, d, s.rings[d])
    requires d !in s.server.rows
    ensures
      var s' := After(s, ProposalAgain(d, s.server.count));
      && RaceFree(s, ProposalAgain(d, s.server.count))
      && s'.server == s.server && s'.history == s.history && s'.nonce == s.nonce
      && s'.rings == s.rings[d := Activated(s.rings[d], s.server.count)]
      && Activates(s.rings[d], s.server.count)
  {
    var n := s.server.count;
    var s1, s2 := DuplicateAnswered(s, d);
    var s3 := DuplicateTaken(s2, d);
    ThreeSafe(s, SendProposal(d), ServeProposal(Propose(d, n)), TakeConfirmation(Duplicate(d, n)), s1, s2, s3);
  }

  /** A device whose rotation was accepted but not confirmed proposes again, is answered that
      its proposal is in use, and so activates the key of the server. */
  lemma LostConfirmationRecovers(s0: Net, run: seq<Action>, d: Device)
    requires IsInitial(s0) && RaceFree(s0, run) && Unconfirmed(After(s0, run), d)
    ensures
      var s := After(s0, run);
      var s' := After(s, ProposalAgain(d, s.server.count));
      && RaceFree(s, ProposalAgain(d, s.server.count)) && d in s'.rings
      && s'.server == s.server && s'.history == s.history
      && s'.rings[d].active == s.server.count && s'.rings[d].proposal == None
      && UsesHistory(s', s'.rings[d])
  {
    InitialOk(s0);
    RunKeepsOk(s0, run);
    var s := After(s0, run);
    if d in s.server.rows { RowIsOk(s, d); }
    assert RingAgrees(s, d, s.rings[d]);
    AgainActivates(s, d);
    CleanedRing(s.rings[d].(active := s.server.count, proposal := None));
  }

  // ---- the window of kept keys, in every run

  /** `born` tells for which index a key was generated. */
  predicate IsBorn(born: map<Key, nat>, key: Key, index: nat) {
    key in born && born[key] == index
  }

  ghost predicate RingBorn(born: map<Key, nat>, r: Ring) {
    forall i :: i in r.keys ==> IsBorn(born, r.keys[i], i)
  }

  ghost predicate UpdateBorn(born: map<Key, nat>, index: nat, sealed: SealedKey, mac: Mac) {
    index >= 1 && IsBorn(born, sealed.key, index) && IsBorn(born, mac.under, index - 1)
  }

  ghost predicate MessageBorn(born: map<Key, nat>, m: Message) {
    m.NewKey? ==> forall x :: x in m.updates ==> UpdateBorn(born, m.index, m.updates[x].sealed, m.updates[x].mac)
  }

  /** Whatever happens to a key, it stays the key of one index. */
  ghost predicate Indexed(s: Net, born: map<Key, nat>) {
    && (forall k :: k in born ==> k.nonce < s.nonce)
    && (forall d :: d in s.rings ==> RingBorn(born, s.rings[d]))
    && (forall d :: d in s.server.rows ==>
          UpdateBorn(born, s.server.rows[d].index, s.server.rows[d].sealed, s.server.rows[d].mac))
    && (forall m :: m in s.messages ==> MessageBorn(born, m))
  }

  ghost function NextBorn(s: Net, a: Action, born: map<Key, nat>): map<Key, nat> {
    if a.TakeDeviceKeys? && Enabled(s, a) then born[Key(a.m.d, s.nonce) := s.rings[a.m.d].active + 1] else born
  }

  lemma DeviceKeysIndexed(s: Net, m: Message, born: map<Key, nat>)
    requires Indexed(s, born) && Enabled(s, TakeDeviceKeys(m))
    ensures Indexed(DeviceKeysTaken(s, m), NextBorn(s, TakeDeviceKeys(m), born))
  {
    var born', s' := NextBorn(s, TakeDeviceKeys(m), born), DeviceKeysTaken(s, m);
    assert forall k :: k in born ==> k in born' && born'[k] == born[k];
    assert RingBorn(born, s.rings[m.d]);
    forall d | d in s'.rings ensures RingBorn(born', s'.rings[d]) {
      if d != m.d { assert RingBorn(born, s.rings[d]); }
    }
    forall x | x in s'.messages ensures MessageBorn(born', x) {
      if x in s.messages { assert MessageBorn(born, x); }
    }
  }

  lemma RotationIndexed(s: Net, m: Message, born: map<Key, nat>)
    requires Indexed(s, born) && Enabled(s, ServeNewKey(m))
    ensures Indexed(NewKeyServed(s, m), born)
  {
    assert MessageBorn(born, m);
  }

  lemma LoginIndexed(s: Net, d: Device, born: map<Key, nat>)
    requires Indexed(s, born) && Enabled(s, Login(d))
    ensures Indexed(LoggedIn(s, d), born)
    ensures s.server.rows[d].index == s.rings[d].active + 1
  {
    assert RingBorn(born, s.rings[d]);
    var row := s.server.rows[d];
    assert UpdateBorn(born, row.index, row.sealed, row.mac);
  }

  lemma StepKeepsIndexed(s: Net, a: Action, born: map<Key, nat>)
    requires Indexed(s, born)
    ensures Indexed(Apply(s, a), NextBorn(s, a, born))
  {
    if Enabled(s, a) {
      match a
      case TakeDeviceKeys(m) => DeviceKeysIndexed(s, m, born);
      case ServeNewKey(m) => RotationIndexed(s, m, born);
      case Login(d) => LoginIndexed(s, d, born);
      case TakeConfirmation(m) => assert RingBorn(born, s.rings[m.d]);
      case _ =>
    }
  }

  lemma InitialIndexed(s: Net)
    requires IsInitial(s)
    ensures Indexed(s, map[s.history[s.server.count] := s.server.count])
  {}

  lemma {:induction false} RunKeepsIndexed(s: Net, run: seq<Action>, born: map<Key, nat>)
    requires Indexed(s, born)
    ensures exists born' :: Indexed(After(s, run), born')
    decreases |run|
  {
    if run == [] {
      assert Indexed(After(s, run), born);
    } else {
      StepKeepsIndexed(s, run[0], born);
      RunKeepsIndexed(Apply(s, run[0]), run[1..], NextBorn(s, run[0], born));
      var born' :| Indexed(After(Apply(s, run[0]), run[1..]), born');
      assert Indexed(After(s, run), born');
    }
  }

  /** The keys up to the active one are the last six, or all since `first`; one newer key at
      most is kept, the proposal. */
  ghost predicate WindowOk(first: nat, r: Ring) {
    && first <= r.active
    && (forall i :: i in r.keys && i <= r.active <==> first <= i <= r.active <= i + 5)
    && (forall i :: i in r.keys ==> i <= r.active + 1)
  }

  /** The active index of every device stays or moves on by one. */
  ghost predicate MovesOn(s: Net, s': Net) {
    s'.rings.Keys == s.rings.Keys
    && forall d :: d in s.rings ==> s.rings[d].active <= s'.rings[d].active <= s.rings[d].active + 1
  }

  lemma CleanedWindow(first: nat, r: Ring, key: Key)
    requires WindowOk(first, r)
    ensures WindowOk(first, Cleaned(r.(keys := r.keys[r.active + 1 := key], active := r.active + 1)))
  {
    var r' := r.(keys := r.keys[r.active + 1 := key], active := r.active + 1);
    forall i ensures i in Cleaned(r').keys && i <= r'.active <==> first <= i <= r'.active <= i + 5 {
      if i <= r.active { assert i in r.keys <==> first <= i <= r.active <= i + 5; }
    }
  }

  lemma ActivatedWindow(first: nat, r: Ring, index: nat)
    requires WindowOk(first, r)
    ensures WindowOk(first, Activated(r, index)) && r.active <= Activated(r, index).active <= r.active + 1
  {
    if Activates(r, index) {
      CleanedWindow(first, r, r.keys[index]);
      assert r.keys[index := r.keys[index]] == r.keys;
    }
  }

  ghost predicate WindowsOk(s: Net, first: nat) {
    forall d :: d in s.rings ==> WindowOk(first, s.rings[d])
  }

  /** A step of one ring. */
  lemma RingMoves(s: Net, s': Net, d: Device, first: nat)
    requires WindowsOk(s, first) && d in s.rings && d in s'.rings && s'.rings == s.rings[d := s'.rings[d]]
    requires WindowOk(first, s'.rings[d]) && s.rings[d].active <= s'.rings[d].active <= s.rings[d].active + 1
    ensures WindowsOk(s', first) && MovesOn(s, s')
  {}

  lemma GeneratedWindow(first: nat, r: Ring, key: Key)
    requires WindowOk(first, r)
    ensures WindowOk(first, Generated(r, key)) && Generated(r, key).active == r.active
  {
    forall i ensures i in Generated(r, key).keys && i <= r.active <==> first <= i <= r.active <= i + 5 {
      assert i in r.keys && i <= r.active <==> first <= i <= r.active <= i + 5;
    }
  }

  lemma LoginWindow(s: Net, d: Device, born: map<Key, nat>, first: nat)
    requires Indexed(s, born) && Enabled(s, Login(d)) && WindowOk(first, s.rings[d])
    ensures WindowOk(first, LoggedIn(s, d).rings[d]) && LoggedIn(s, d).rings[d].active == s.rings[d].active + 1
  {
    LoginIndexed(s, d, born);
    CleanedWindow(first, s.rings[d], s.server.rows[d].sealed.key);
  }

  lemma StepKeepsWindow(s: Net, a: Action, born: map<Key, nat>, first: nat)
    requires Indexed(s, born) && WindowsOk(s, first)
    ensures MovesOn(s, Apply(s, a)) && WindowsOk(Apply(s, a), first)
  {
    if Enabled(s, a) {
      var s' := Apply(s, a);
      match a
      case TakeConfirmation(m) =>
        ActivatedWindow(first, s.rings[m.d], m.index);
        RingMoves(s, s', m.d, first);
      case TakeDeviceKeys(m) =>
        GeneratedWindow(first, s.rings[m.d], Key(m.d, s.nonce));
        RingMoves(s, s', m.d, first);
      case Login(d) =>
        LoginWindow(s, d, born, first);
        RingMoves(s, s', d, first);
      case _ => assert s'.rings == s.rings;
    }
  }

  lemma {:induction false} RunKeepsWindow(s: Net, run: seq<Action>, born: map<Key, nat>, first: nat)
    requires Indexed(s, born) && WindowsOk(s, first)
    ensures After(s, run).rings.Keys == s.rings.Keys
    ensures WindowsOk(After(s, run), first)
    decreases |run|
  {
    if run != [] {
      StepKeepsWindow(s, run[0], born, first);
      StepKeepsIndexed(s, run[0], born);
      RunKeepsWindow(Apply(s, run[0]), run[1..], NextBorn(s, run[0], born), first);
    }
  }

  lemma WindowInRun(s0: Net, run: seq<Action>, a: Action)
    requires IsInitial(s0)
    ensures var s := After(s0, run);
      s.rings.Keys == s0.rings.Keys && WindowsOk(s, s0.server.count) && MovesOn(s, Apply(s, a))
  {
    var born := map[s0.history[s0.server.count] := s0.server.count];
    InitialIndexed(s0);
    RunKeepsWindow(s0, run, born, s0.server.count);
    RunKeepsIndexed(s0, run, born);
    var born' :| Indexed(After(s0, run), born');
    StepKeepsWindow(After(s0, run), a, born', s0.server.count);
  }

  /** In every run, race or not: a device keeps exactly the active key, its last five
      predecessors as far as it ever had them, and a proposal; and every step moves an active
      index on by one at most. */
  lemma RingWindow(s0: Net, run: seq<Action>, d: Device, a: Action)
    requires IsInitial(s0) && d in s0.rings
    ensures
      var s := After(s0, run);
      && d in s.rings && MovesOn(s, Apply(s, a))
      && var first, r := s0.server.count, s.rings[d];
         && first <= r.active && r.active in r.keys
         && (forall i :: i <= r.active ==> (i in r.keys <==> first <= i && r.active <= i + 5))
         && (forall i :: i in r.keys ==> i <= r.active + 1)
  {
    WindowInRun(s0, run, a);
    assert WindowOk(s0.server.count, After(s0, run).rings[d]);
  }
}
