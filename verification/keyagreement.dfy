/** Devices that use the same key index use the same key: the invariant behind it, the one race
    that would break it, and what a device can and cannot recover from.
 */
module KeyAgreement {
  import opened Rows
  import opened Keys
  import opened KeyRotation

  // ---- the invariant

  ghost predicate HistoryOk(s: Net) {
    && (forall i, j :: 0 <= i < j < |s.history| ==> s.history[i] != s.history[j])
    && (forall i :: 0 <= i < |s.history| ==> s.history[i].nonce < s.nonce)
  }

  /** A generated key that is not in use yet: it is the device's own, and the server uses it for
      that index exactly if the rotation to it was the device's. */
  ghost predicate ProposalOk(s: Net, d: Device, r: Ring) {
    r.proposal.Some? && r.proposal.value > r.active ==>
      var n := r.proposal.value;
      && n == r.active + 1 && n in r.keys
      && r.keys[n].creator == d && r.keys[n].nonce < s.nonce
      && (n < |s.history| ==> (s.history[n].creator == d <==> s.history[n] == r.keys[n]))
      && (n >= |s.history| ==> r.keys[n] !in s.history)
  }

  ghost predicate RingAgrees(s: Net, d: Device, r: Ring) {
    && r.active < |s.history| && r.active in r.keys
    && (forall i :: i in r.keys && i <= r.active ==> r.keys[i] == s.history[i])
    && ProposalOk(s, d, r)
    && (forall i :: r.active < i < |s.history| && s.history[i].creator == d ==>
          i == r.active + 1 && r.proposal == Some(i))
    && (forall i :: r.active < i < |s.history| - 1 ==> s.history[i].creator == d)
  }

  /** A waiting key change brings the newest key and is vouched for by the one before. */
  ghost predicate RowOk(s: Net, d: Device, row: KeyRow) {
    var n := |s.history| - 1;
    && n >= 1 && row.index == n
    && row.sealed == SealedKey(d, s.history[n])
    && row.mac == Mac(s.history[n - 1], NewKeyFor(n, d, row.sealed))
    && s.history[n].creator != d
  }

  /** The device does not use the newest key, and the newest key is not its own. */
  ghost predicate Behind(s: Net, d: Device)
    requires d in s.rings && s.history != []
  {
    s.rings[d].active < |s.history| - 1 && s.history[|s.history| - 1].creator != d
  }

  ghost predicate TablesOk(s: Net) {
    && s.server.macs.Keys == s.rings.Keys && s.history != []
    && (forall d :: d in s.server.rows ==> RowOk(s, d, s.server.rows[d]))
    && (forall d :: d in s.rings && d !in s.server.rows ==>
          s.server.macs[d] == OwnMac(d, s.history[|s.history| - 1]))
    && (forall d :: d in s.rings && Behind(s, d) ==> d in s.server.rows)
  }

  ghost predicate UpdateOk(s: Net, index: nat, key: Key, x: Device, u: KeyUpdate)
    requires 1 <= index <= |s.history|
  {
    u == KeyUpdate(SealedKey(x, key), Mac(s.history[index - 1], NewKeyFor(index, x, SealedKey(x, key))))
  }

  ghost predicate Proposes(r: Ring, index: nat, key: Key) {
    r.active + 1 == index && r.proposal == Some(index) && index in r.keys && r.keys[index] == key
  }

  ghost predicate NewKeyOk(s: Net, m: Message)
    requires m.NewKey? && 1 <= m.index <= |s.history| && m.d in s.rings
  {
    var key, r := m.cmac.under, s.rings[m.d];
    && m.cmac == OwnMac(m.d, key) && key.creator == m.d && key.nonce < s.nonce
    && m.updates.Keys == s.rings.Keys - {m.d}
    && (forall x :: x in m.updates ==> UpdateOk(s, m.index, key, x, m.updates[x]))
    && (m.index == |s.history| ==> key !in s.history)
    && (r.active < m.index ==> Proposes(r, m.index, key))
  }

  ghost predicate MessageOk(s: Net, m: Message) {
    && m.d in s.rings && m.index <= |s.history|
    && match m
       case Propose(_, index) => index >= 1
       case DeviceKeys(d, index, macs) =>
         index >= 1 && macs.Keys == s.rings.Keys - {d}
         && forall x :: x in macs ==> macs[x] == OwnMac(x, s.history[index - 1])
       case NewKey(_, index, _, _) => index >= 1 && NewKeyOk(s, m)
       case Duplicate(_, index) => index < |s.history|
       case NewKeyAck(d, index) => Confirmed(s, d, index)
       case MacUpdate(d, index, mac) =>
         index <= s.rings[d].active && index < |s.history| && mac == OwnMac(d, s.history[index])
  }

  /** The rotation to `index` was the device's own, or the device has moved past it. */
  ghost predicate Confirmed(s: Net, d: Device, index: nat)
    requires d in s.rings
  {
    index < |s.history| && (s.rings[d].active >= index || s.history[index].creator == d)
  }

  ghost predicate RingsOk(s: Net) {
    forall d :: d in s.rings ==> RingAgrees(s, d, s.rings[d])
  }

  ghost predicate MessagesOk(s: Net) {
    forall m :: m in s.messages ==> MessageOk(s, m)
  }

  ghost predicate Ok(s: Net) {
    SwapInv(s) && HistoryOk(s) && TablesOk(s) && RingsOk(s) && MessagesOk(s)
  }

  lemma InitialOk(s: Net)
    requires IsInitial(s)
    ensures Ok(s)
  {}

  // ---- the race

  /** The confirmation makes the device use its own proposal. */
  predicate Activates(r: Ring, index: nat) {
    index == r.active + 1 && r.proposal == Some(index) && index in r.keys
  }

  /** A device is told that its proposal is already in use, although the server holds back
      somebody else's key of that index for it. */
  ghost predicate Races(s: Net, a: Action) {
    && a.TakeConfirmation? && Enabled(s, a) && a.m.Duplicate? && Activates(s.rings[a.m.d], a.m.index)
    && a.m.d in s.server.rows && s.server.rows[a.m.d].index == a.m.index
  }

  ghost predicate RaceFree(s: Net, run: seq<Action>)
    decreases |run|
  {
    run == [] || (!Races(s, run[0]) && RaceFree(Apply(s, run[0]), run[1..]))
  }

  // ---- what a step leaves intact

  /** A ring keeps its active key and its pending proposal, or moves on by one. */
  ghost predicate RingStep(r: Ring, r': Ring) {
    || r'.active == r.active + 1
    || (r'.active == r.active
        && (r.proposal == Some(r.active + 1) && r.active + 1 in r.keys ==>
              Proposes(r', r.active + 1, r.keys[r.active + 1])))
  }

  /** Only the ring of `d` takes a step, and the history and the nonce only grow. */
  ghost predicate Follows(s: Net, s': Net, d: Device) {
    && s'.rings.Keys == s.rings.Keys && d in s.rings
    && (forall x :: x in s.rings && x != d ==> s'.rings[x] == s.rings[x])
    && RingStep(s.rings[d], s'.rings[d])
    && s.history <= s'.history && s.nonce <= s'.nonce
  }

  lemma NewKeyStays(s: Net, s': Net, d: Device, m: Message)
    requires Follows(s, s', d) && m.NewKey? && MessageOk(s, m)
    ensures MessageOk(s', m)
  {
    forall x | x in m.updates ensures UpdateOk(s', m.index, m.cmac.under, x, m.updates[x]) {
      assert UpdateOk(s, m.index, m.cmac.under, x, m.updates[x]);
    }
    if m.index == |s'.history| {
      assert s'.history == s.history;
    }
  }

  lemma MessageStays(s: Net, s': Net, d: Device, m: Message)
    requires Follows(s, s', d) && MessageOk(s, m)
    ensures MessageOk(s', m)
  {
    if m.NewKey? { NewKeyStays(s, s', d, m); }
  }

  lemma MessagesStay(s: Net, s': Net, d: Device)
    requires Follows(s, s', d) && MessagesOk(s)
    ensures forall m :: m in s.messages ==> MessageOk(s', m)
  {
    forall m | m in s.messages ensures MessageOk(s', m) {
      MessageStays(s, s', d, m);
    }
  }

  lemma RingsStay(s: Net, s': Net, d: Device)
    requires Follows(s, s', d) && RingsOk(s) && s'.history == s.history
    requires RingAgrees(s', d, s'.rings[d])
    ensures RingsOk(s')
  {
    forall x | x in s'.rings ensures RingAgrees(s', x, s'.rings[x]) {
      if x != d { assert RingAgrees(s, x, s.rings[x]); }
    }
  }

  lemma TablesStay(s: Net, s': Net, d: Device)
    requires Follows(s, s', d) && TablesOk(s)
    requires s'.history == s.history && s'.server == s.server
    ensures TablesOk(s')
  {
    forall x | x in s'.server.rows ensures RowOk(s', x, s'.server.rows[x]) {
      assert RowOk(s, x, s.server.rows[x]);
    }
    forall x | x in s'.rings && Behind(s', x) ensures x in s'.server.rows {
      assert Behind(s, x);
    }
  }

  /** A step that leaves the server alone. */
  lemma DeviceStepKeepsOk(s: Net, s': Net, d: Device)
    requires Ok(s) && SwapInv(s') && Follows(s, s', d) && RingAgrees(s', d, s'.rings[d])
    requires s'.history == s.history && s'.server == s.server
    requires forall m :: m in s'.messages && m !in s.messages ==> MessageOk(s', m)
    ensures Ok(s')
  {
    MessagesStay(s, s', d);
    RingsStay(s, s', d);
    TablesStay(s, s', d);
  }

  lemma MessageIsOk(s: Net, m: Message)
    requires RingsOk(s) && MessagesOk(s) && m in s.messages
    ensures MessageOk(s, m) && RingAgrees(s, m.d, s.rings[m.d])
  {
    assert MessageOk(s, m);
  }

  lemma RowIsOk(s: Net, d: Device)
    requires RingsOk(s) && TablesOk(s) && d in s.server.rows && d in s.rings
    ensures RowOk(s, d, s.server.rows[d]) && RingAgrees(s, d, s.rings[d])
  {}

  // ---- steps

  lemma CleanedRing(r: Ring)
    requires r.active in r.keys
    ensures var c := Cleaned(r);
      && c.active == r.active && c.proposal == r.proposal && c.active in c.keys
      && (forall i :: i in c.keys ==> i in r.keys && c.keys[i] == r.keys[i])
      && (forall i :: i in r.keys && i + KEPT_KEYS >= r.active ==> i in c.keys)
  {}

  lemma AnswerOk(s: Net, m: Message, x: Message)
    requires SwapInv(s) && TablesOk(s) && MessageOk(s, m) && m.Propose? && m.d in s.rings
    requires x in ProposalServed(s, m).messages && x !in s.messages
    ensures MessageOk(s, x)
  {
    if m.index == s.server.count + 1 {
      assert s.server.rows.Keys * s.rings.Keys == s.server.rows.Keys;
      if s.server.rows.Keys == {} {
        assert forall x :: x in s.rings ==> s.server.macs[x] == OwnMac(x, s.history[|s.history| - 1]);
      }
    }
  }

  lemma SameRing(s: Net, s': Net, d: Device)
    requires RingsOk(s) && d in s.rings && s'.rings == s.rings && s'.history == s.history && s'.nonce == s.nonce
    ensures Follows(s, s', d) && RingAgrees(s', d, s'.rings[d])
  {
    assert RingAgrees(s, d, s.rings[d]);
  }

  /** A step that only sends a message. */
  lemma SentKeepsOk(s: Net, m: Message, s': Net)
    requires Ok(s) && SwapInv(s') && MessageOk(s, m) && s' == s.(messages := s.messages + {m})
    ensures Ok(s')
  {
    SameRing(s, s', m.d);
    MessageStays(s, s', m.d, m);
    DeviceStepKeepsOk(s, s', m.d);
  }

  lemma ProposalKeepsOk(s: Net, m: Message) returns (s': Net)
    requires Ok(s) && Enabled(s, ServeProposal(m))
    ensures s' == ProposalServed(s, m) && Ok(s')
  {
    MessageIsOk(s, m);
    StepKeepsSwap(s, ServeProposal(m));
    s' := ProposalServed(s, m);
    if s' != s {
      var x := ProposalAnswer(s, m);
      AnswerOk(s, m, x);
      SentKeepsOk(s, x, s');
    }
  }

  lemma ProposalAnswer(s: Net, m: Message) returns (x: Message)
    requires m.Propose? && ProposalServed(s, m) != s
    ensures x !in s.messages && ProposalServed(s, m) == s.(messages := s.messages + {x})
  {
    x := if m.index == s.server.count + 1
         then DeviceKeys(m.d, m.index, Answered(s.rings.Keys, s.server, m.d, m.index).macs)
         else Duplicate(m.d, m.index);
    assert x in s.messages ==> s.messages + {x} == s.messages;
  }

  lemma GeneratedAgrees(s: Net, d: Device, r: Ring)
    requires RingAgrees(s, d, r) && HistoryOk(s)
    ensures
      var r' := Generated(r, Key(d, s.nonce));
      && RingAgrees(s.(nonce := s.nonce + 1), d, r')
      && RingStep(r, r') && r'.active == r.active
      && r.active + 1 in r'.keys && Proposes(r', r.active + 1, r'.keys[r.active + 1])
  {
    assert Key(d, s.nonce) !in s.history;
  }

  lemma SentKeyOk(s: Net, m: Message, r': Ring)
    requires MessageOk(s, m) && m.DeviceKeys? && s.rings[m.d] == r' && RingAgrees(s, m.d, r')
    requires m.index == r'.active + 1 && m.index in r'.keys && Proposes(r', m.index, r'.keys[m.index])
    ensures MessageOk(s, NewKey(m.d, m.index, OwnMac(m.d, r'.keys[m.index]),
                                UpdatesFor(m.macs, m.index, r'.keys[r'.active], r'.keys[m.index])))
  {}

  lemma DeviceKeysFollows(s: Net, m: Message)
    requires HistoryOk(s) && Enabled(s, TakeDeviceKeys(m)) && MessageOk(s, m) && RingAgrees(s, m.d, s.rings[m.d])
    ensures
      var s' := DeviceKeysTaken(s, m);
      && Follows(s, s', m.d) && RingAgrees(s', m.d, s'.rings[m.d])
      && s'.server == s.server && s'.history == s.history
      && forall x :: x in s'.messages && x !in s.messages ==> MessageOk(s', x)
  {
    var s', d := DeviceKeysTaken(s, m), m.d;
    GeneratedAgrees(s, d, s.rings[d]);
    MessageStays(s, s', d, m);
    SentKeyOk(s', m, s'.rings[d]);
  }

  lemma DeviceKeysKeepsOk(s: Net, m: Message) returns (s': Net)
    requires Ok(s) && Enabled(s, TakeDeviceKeys(m))
    ensures s' == DeviceKeysTaken(s, m) && Ok(s')
  {
    MessageIsOk(s, m);
    StepKeepsSwap(s, TakeDeviceKeys(m));
    DeviceKeysFollows(s, m);
    s' := DeviceKeysTaken(s, m);
    DeviceStepKeepsOk(s, s', m.d);
  }

  /** The history after a rotation to `m.index` by `m.d`, seen from any ring. */
  lemma RotationSeenBy(s: Net, s': Net, m: Message, x: Device)
    requires RingsOk(s) && MessageOk(s, m) && m.NewKey? && m.index == |s.history| && x in s.rings
    requires s'.history == s.history + [m.cmac.under] && s'.nonce == s.nonce && !Behind(s, x)
    ensures RingAgrees(s', x, s.rings[x])
  {
    assert RingAgrees(s, x, s.rings[x]) && RingAgrees(s, m.d, s.rings[m.d]);
    assert NewKeyOk(s, m);
    assert forall i :: 0 <= i < |s.history| ==> s'.history[i] == s.history[i];
  }

  lemma RotationRow(s: Net, history': seq<Key>, m: Message, x: Device)
    requires MessageOk(s, m) && m.NewKey? && m.index == |s.history| && x in m.updates
    requires history' == s.history + [m.cmac.under]
    ensures RowOk(s.(history := history'), x, RowsOf(m.index, m.updates)[x])
  {
    assert NewKeyOk(s, m);
    assert UpdateOk(s, m.index, m.cmac.under, x, m.updates[x]);
  }

  lemma RotationTables(s: Net, s': Net, m: Message)
    requires s.server.macs.Keys == s.rings.Keys && s.server.rows == map[]
    requires MessageOk(s, m) && m.NewKey? && m.index == |s.history|
    requires s'.rings == s.rings && s'.history == s.history + [m.cmac.under]
    requires s'.server.rows == RowsOf(m.index, m.updates) && s'.server.macs == s.server.macs[m.d := m.cmac]
    ensures TablesOk(s')
  {
    assert NewKeyOk(s, m);
    forall x | x in s'.server.rows ensures RowOk(s', x, s'.server.rows[x]) {
      RotationRow(s, s'.history, m, x);
    }
  }

  lemma RotationRings(s: Net, s': Net, m: Message)
    requires RingsOk(s) && MessageOk(s, m) && m.NewKey? && m.index == |s.history|
    requires s'.rings == s.rings && s'.history == s.history + [m.cmac.under] && s'.nonce == s.nonce
    requires forall x :: x in s.rings ==> !Behind(s, x)
    ensures RingsOk(s')
  {
    forall x | x in s'.rings ensures RingAgrees(s', x, s'.rings[x]) {
      RotationSeenBy(s, s', m, x);
    }
  }

  lemma RotationHistory(s: Net, s': Net, m: Message)
    requires HistoryOk(s) && m.NewKey? && m.cmac.under !in s.history && m.cmac.under.nonce < s.nonce
    requires s'.history == s.history + [m.cmac.under] && s'.nonce == s.nonce
    ensures HistoryOk(s')
  {}

  lemma RotationMessages(s: Net, s': Net, m: Message)
    requires MessagesOk(s) && MessageOk(s, m) && m.NewKey?
    requires s'.rings == s.rings && s'.nonce == s.nonce && s'.history == s.history + [m.cmac.under]
    requires m.index == |s.history| && m.cmac.under.creator == m.d
    requires s'.messages == s.messages + {NewKeyAck(m.d, m.index)}
    ensures MessagesOk(s')
  {
    MessagesStay(s, s', m.d);
  }

  lemma RotationFields(s: Net, m: Message)
    requires m.NewKey? && s.server.rows == map[] && CanRotate(s.rings.Keys, s.server, m.d, m.index, m.updates)
    ensures
      var s' := NewKeyServed(s, m);
      && s'.rings == s.rings && s'.nonce == s.nonce && s'.history == s.history + [m.cmac.under]
      && s'.messages == s.messages + {NewKeyAck(m.d, m.index)}
      && s'.server.rows == RowsOf(m.index, m.updates) && s'.server.macs == s.server.macs[m.d := m.cmac]
  {}

  lemma SwappedKey(s: Net, m: Message)
    requires MessageOk(s, m) && m.NewKey? && m.index == |s.history|
    ensures m.cmac.under !in s.history && m.cmac.under.nonce < s.nonce && m.cmac.under.creator == m.d
  {
    assert NewKeyOk(s, m);
  }

  lemma NewKeyKeepsOk(s: Net, m: Message) returns (s': Net)
    requires Ok(s) && Enabled(s, ServeNewKey(m))
    ensures s' == NewKeyServed(s, m) && Ok(s')
  {
    s' := NewKeyServed(s, m);
    if CanRotate(s.rings.Keys, s.server, m.d, m.index, m.updates) {
      MessageIsOk(s, m);
      StepKeepsSwap(s, ServeNewKey(m));
      RotationFields(s, m);
      SwappedKey(s, m);
      RotationHistory(s, s', m);
      RotationTables(s, s', m);
      RotationRings(s, s', m);
      RotationMessages(s, s', m);
    }
  }

  /** A confirmed proposal is the key the server uses. */
  lemma ConfirmedRing(s: Net, d: Device, index: nat)
    requires d in s.rings && RingAgrees(s, d, s.rings[d]) && index < |s.history|
    requires Activates(s.rings[d], index) ==> s.history[index].creator == d
    ensures RingAgrees(s, d, Activated(s.rings[d], index)) && RingStep(s.rings[d], Activated(s.rings[d], index))
  {
    var r := s.rings[d];
    if Activates(r, index) {
      CleanedRing(r.(active := index, proposal := None));
    }
  }

  /** Unless it races, an activated proposal was accepted by the server. */
  lemma ActivatesOwn(s: Net, m: Message)
    requires SwapInv(s) && TablesOk(s) && Enabled(s, TakeConfirmation(m)) && !Races(s, TakeConfirmation(m))
    requires MessageOk(s, m) && RingAgrees(s, m.d, s.rings[m.d]) && Activates(s.rings[m.d], m.index)
    ensures s.history[m.index].creator == m.d
  {
    if m.Duplicate? && m.index == s.server.count {
      assert !Behind(s, m.d);
    }
  }

  lemma ConfirmationFollows(s: Net, m: Message) returns (s': Net)
    requires SwapInv(s) && TablesOk(s) && Enabled(s, TakeConfirmation(m)) && !Races(s, TakeConfirmation(m))
    requires MessageOk(s, m) && RingAgrees(s, m.d, s.rings[m.d])
    ensures s' == s.(rings := s.rings[m.d := Activated(s.rings[m.d], m.index)])
    ensures Follows(s, s', m.d) && RingAgrees(s', m.d, s'.rings[m.d])
  {
    if Activates(s.rings[m.d], m.index) { ActivatesOwn(s, m); }
    s' := OneRingFollows(s, m.d, m.index);
  }

  lemma OneRingFollows(s: Net, d: Device, index: nat) returns (s': Net)
    requires d in s.rings && RingAgrees(s, d, s.rings[d]) && index < |s.history|
    requires Activates(s.rings[d], index) ==> s.history[index].creator == d
    ensures s' == s.(rings := s.rings[d := Activated(s.rings[d], index)])
    ensures Follows(s, s', d) && RingAgrees(s', d, s'.rings[d])
  {
    ConfirmedRing(s, d, index);
    s' := s.(rings := s.rings[d := Activated(s.rings[d], index)]);
    SameHistoryAgrees(s, s', d, s'.rings[d]);
  }

  lemma SameHistoryAgrees(s: Net, s': Net, d: Device, r: Ring)
    requires RingAgrees(s, d, r) && s'.history == s.history && s'.nonce == s.nonce
    ensures RingAgrees(s', d, r)
  {}

  lemma ConfirmationKeepsOk(s: Net, m: Message) returns (s': Net)
    requires Ok(s) && Enabled(s, TakeConfirmation(m)) && !Races(s, TakeConfirmation(m))
    ensures s' == Apply(s, TakeConfirmation(m)) && Ok(s')
  {
    MessageIsOk(s, m);
    StepKeepsSwap(s, TakeConfirmation(m));
    s' := ConfirmationFollows(s, m);
    DeviceStepKeepsOk(s, s', m.d);
  }

  /** A welcome that verifies is the next key after the active one, and the server's newest. */
  lemma WelcomeIsNext(s: Net, d: Device, r: Ring, row: KeyRow)
    requires HistoryOk(s) && RingAgrees(s, d, r) && RowOk(s, d, row) && WelcomeAccepted(r, d, row)
    ensures r.active + 1 == row.index == |s.history| - 1
    ensures RingAgrees(s, d, Imported(r, row.index, row.sealed.key))
    ensures Imported(r, row.index, row.sealed.key).active == r.active + 1
  {
    assert s.history[r.active] == s.history[row.index - 1];
    assert r.active == row.index - 1;
    CleanedRing(r.(keys := r.keys[row.index := row.sealed.key], active := row.index));
  }

  lemma LoginFollows(s: Net, d: Device)
    requires HistoryOk(s) && d in s.rings && RingAgrees(s, d, s.rings[d])
    requires Enabled(s, Login(d)) && RowOk(s, d, s.server.rows[d])
    ensures
      var s' := LoggedIn(s, d);
      && Follows(s, s', d) && RingAgrees(s', d, s'.rings[d])
      && s'.server == s.server && s'.history == s.history
      && forall m :: m in s'.messages && m !in s.messages ==> MessageOk(s', m)
  {
    WelcomeIsNext(s, d, s.rings[d], s.server.rows[d]);
  }

  lemma LoginKeepsOk(s: Net, d: Device) returns (s': Net)
    requires Ok(s) && Enabled(s, Login(d))
    ensures s' == LoggedIn(s, d) && Ok(s')
  {
    RowIsOk(s, d);
    StepKeepsSwap(s, Login(d));
    LoginFollows(s, d);
    s' := LoggedIn(s, d);
    DeviceStepKeepsOk(s, s', d);
  }

  lemma MacRows(s: Net, s': Net, gone: set<Device>)
    requires TablesOk(s) && s'.history == s.history && s'.server.rows == s.server.rows - gone
    ensures forall x :: x in s'.server.rows ==> RowOk(s', x, s'.server.rows[x])
  {
    forall x | x in s'.server.rows ensures RowOk(s', x, s'.server.rows[x]) {
      assert RowOk(s, x, s.server.rows[x]);
    }
  }

  lemma MacMacs(s: Net, s': Net, d: Device)
    requires TablesOk(s) && d in s.rings && !Behind(s, d) && s'.rings == s.rings && s'.history == s.history
    requires s'.server.rows == s.server.rows - {d}
    requires s'.server.macs == s.server.macs[d := OwnMac(d, s.history[|s.history| - 1])]
    ensures forall x :: x in s'.rings && x !in s'.server.rows ==> s'.server.macs[x] == OwnMac(x, s'.history[|s'.history| - 1])
    ensures forall x :: x in s'.rings && Behind(s', x) ==> x in s'.server.rows
  {
    forall x | x in s'.rings && Behind(s', x) ensures x in s'.server.rows {
      assert Behind(s, x);
    }
  }

  lemma MacTables(s: Net, d: Device, index: nat, s': Net)
    requires |s.history| == s.server.count + 1 && TablesOk(s) && d in s.rings && index < |s.history|
    requires forall x :: x in s.server.rows ==> s.server.rows[x].index == s.server.count
    requires s' == s.(server := MacUpdated(s.rings.Keys, s.server, d, index, OwnMac(d, s.history[index])))
    requires index == s.server.count ==> !Behind(s, d)
    ensures TablesOk(s')
  {
    if index == s.server.count {
      assert s'.server.rows == s.server.rows - {d};
      MacRows(s, s', {d});
      MacMacs(s, s', d);
    } else {
      assert s' == s;
    }
  }

  lemma MacUpdateIs(s: Net, m: Message)
    requires RingsOk(s) && MessagesOk(s) && m in s.messages && m.MacUpdate?
    ensures m.d in s.rings && m.index < |s.history| && m.mac == OwnMac(m.d, s.history[m.index])
    ensures s.history != [] && (m.index == |s.history| - 1 ==> !Behind(s, m.d))
  {
    assert MessageOk(s, m) && RingAgrees(s, m.d, s.rings[m.d]);
  }

  lemma ServeMacKeepsOk(s: Net, m: Message) returns (s': Net)
    requires Ok(s) && Enabled(s, ServeMac(m))
    ensures s' == Apply(s, ServeMac(m)) && Ok(s')
  {
    StepKeepsSwap(s, ServeMac(m));
    MacUpdateIs(s, m);
    s' := s.(server := MacUpdated(s.rings.Keys, s.server, m.d, m.index, m.mac));
    MacTables(s, m.d, m.index, s');
    SameRing(s, s', m.d);
    MessagesStay(s, s', m.d);
    RingsStay(s, s', m.d);
  }

  lemma SendProposalKeepsOk(s: Net, d: Device) returns (s': Net)
    requires Ok(s) && Enabled(s, SendProposal(d))
    ensures s' == Apply(s, SendProposal(d)) && Ok(s')
  {
    StepKeepsSwap(s, SendProposal(d));
    s' := Apply(s, SendProposal(d));
    SameRing(s, s', d);
    DeviceStepKeepsOk(s, s', d);
  }

  lemma OwnMacOk(s: Net, d: Device) returns (m: Message)
    requires RingsOk(s) && d in s.rings && s.rings[d].active in s.rings[d].keys
    ensures MessageOk(s, m) && m == MacUpdate(d, s.rings[d].active, OwnMac(d, s.rings[d].keys[s.rings[d].active]))
  {
    assert RingAgrees(s, d, s.rings[d]);
    m := MacUpdate(d, s.rings[d].active, OwnMac(d, s.rings[d].keys[s.rings[d].active]));
  }

  lemma SendMacKeepsOk(s: Net, d: Device) returns (s': Net)
    requires Ok(s) && Enabled(s, SendMac(d))
    ensures s' == Apply(s, SendMac(d)) && Ok(s')
  {
    StepKeepsSwap(s, SendMac(d));
    var m := OwnMacOk(s, d);
    s' := s.(messages := s.messages + {m});
    SentKeepsOk(s, m, s');
  }

  lemma LoseKeepsOk(s: Net, m: Message) returns (s': Net)
    requires Ok(s) && Enabled(s, Lose(m))
    ensures s' == Apply(s, Lose(m)) && Ok(s')
  {
    StepKeepsSwap(s, Lose(m));
    MessageIsOk(s, m);
    s' := Apply(s, Lose(m));
    SameRing(s, s', m.d);
    DeviceStepKeepsOk(s, s', m.d);
  }

  /** Every step that is not the race keeps the invariant. */
  lemma StepKeepsOk(s: Net, a: Action)
    requires Ok(s) && !Races(s, a)
    ensures Ok(Apply(s, a))
  {
    if Enabled(s, a) {
      var s';
      match a
      case ServeProposal(m) => s' := ProposalKeepsOk(s, m);
      case TakeDeviceKeys(m) => s' := DeviceKeysKeepsOk(s, m);
      case ServeNewKey(m) => s' := NewKeyKeepsOk(s, m);
      case TakeConfirmation(m) => s' := ConfirmationKeepsOk(s, m);
      case Login(d) => s' := LoginKeepsOk(s, d);
      case ServeMac(m) => s' := ServeMacKeepsOk(s, m);
      case SendProposal(d) => s' := SendProposalKeepsOk(s, d);
      case SendMac(d) => s' := SendMacKeepsOk(s, d);
      case Lose(m) => s' := LoseKeepsOk(s, m);
    }
  }

  lemma {:induction false} RunKeepsOk(s: Net, run: seq<Action>)
    requires Ok(s) && RaceFree(s, run)
    ensures Ok(After(s, run))
    decreases |run|
  {
    if run != [] {
      StepKeepsOk(s, run[0]);
      RunKeepsOk(Apply(s, run[0]), run[1..]);
    }
  }
}
