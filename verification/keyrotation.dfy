/** The rotation of the exchange key of one account, as a step system over the key rings of its
    devices, the key tables of the server and the messages between them.

    Messages may be lost, delayed, reordered and repeated.  A device acts on the answer to a
    proposal only while it still has the key it proposed to replace, which is what having at
    most one request under way amounts to.
 */
module KeyRotation {
  import opened Rows
  import opened Keys

  datatype Message =
    | Propose(d: Device, index: nat)
    | DeviceKeys(d: Device, index: nat, macs: map<Device, Mac>)
    | Duplicate(d: Device, index: nat)
    | NewKey(d: Device, index: nat, cmac: Mac, updates: map<Device, KeyUpdate>)
    | NewKeyAck(d: Device, index: nat)
    | MacUpdate(d: Device, index: nat, mac: Mac)

  /** `history[i]` is the key the server's i-th rotation made the key of the account, and `nonce`
      the number of keys generated so far. */
  datatype Net = Net(
    rings: map<Device, Ring>,
    server: Tables,
    messages: set<Message>,
    history: seq<Key>,
    nonce: nat)

  datatype Action =
    | SendProposal(d: Device)
    | ServeProposal(m: Message)
    | TakeDeviceKeys(m: Message)
    | ServeNewKey(m: Message)
    | TakeConfirmation(m: Message)
    | Login(d: Device)
    | SendMac(d: Device)
    | ServeMac(m: Message)
    | Lose(m: Message)

  // ---- what the device computes

  /** The proof of `d` that it knows the key. */
  function OwnMac(d: Device, key: Key): Mac {
    Mac(key, HasPublicKey(d))
  }

  /** The new key for every device that proved to know the current one. */
  function UpdatesFor(macs: map<Device, Mac>, index: nat, current: Key, next: Key): map<Device, KeyUpdate> {
    map x | x in macs && macs[x] == OwnMac(x, current) ::
      KeyUpdate(SealedKey(x, next), Mac(current, NewKeyFor(index, x, SealedKey(x, next))))
  }

  /** A welcome message is accepted only if the current key vouches for the new one. */
  predicate WelcomeAccepted(r: Ring, d: Device, row: KeyRow) {
    r.active in r.keys
    && row.mac == Mac(r.keys[r.active], NewKeyFor(row.index, d, row.sealed)) && row.sealed.recipient == d
  }

  // ---- the steps

  ghost predicate Enabled(s: Net, a: Action) {
    match a
    case SendProposal(d) => d in s.rings
    case ServeProposal(m) => m.Propose? && m in s.messages
    case TakeDeviceKeys(m) =>
      m.DeviceKeys? && m in s.messages && m.d in s.rings && m.index == s.rings[m.d].active + 1
      && RingOk(s.rings[m.d])
    case ServeNewKey(m) => m.NewKey? && m in s.messages
    case TakeConfirmation(m) => (m.Duplicate? || m.NewKeyAck?) && m in s.messages && m.d in s.rings
    case Login(d) => d in s.rings && d in s.server.rows && WelcomeAccepted(s.rings[d], d, s.server.rows[d])
    case SendMac(d) => d in s.rings && d !in s.server.rows && RingOk(s.rings[d])
    case ServeMac(m) => m.MacUpdate? && m in s.messages
    case Lose(m) => m in s.messages
  }

  ghost function ProposalServed(s: Net, m: Message): Net
    requires m.Propose?
  {
    match Answered(s.rings.Keys, s.server, m.d, m.index)
    case AnswerDevices(macs) => s.(messages := s.messages + {DeviceKeys(m.d, m.index, macs)})
    case AnswerDuplicate => s.(messages := s.messages + {Duplicate(m.d, m.index)})
    case _ => s
  }

  ghost function DeviceKeysTaken(s: Net, m: Message): Net
    requires Enabled(s, TakeDeviceKeys(m))
  {
    var d, r := m.d, s.rings[m.d];
    var r' := Generated(r, Key(d, s.nonce));
    var index := r.active + 1;
    s.(rings := s.rings[d := r'],
       nonce := s.nonce + 1,
       messages := s.messages +
         {NewKey(d, index, OwnMac(d, r'.keys[index]), UpdatesFor(m.macs, index, r.keys[r.active], r'.keys[index]))})
  }

  ghost function NewKeyServed(s: Net, m: Message): Net
    requires m.NewKey?
  {
    if !CanRotate(s.rings.Keys, s.server, m.d, m.index, m.updates) then s
    else s.(server := Rotated(s.rings.Keys, s.server, m.d, m.index, m.cmac, m.updates),
            history := s.history + [m.cmac.under],
            messages := s.messages + {NewKeyAck(m.d, m.index)})
  }

  ghost function LoggedIn(s: Net, d: Device): Net
    requires Enabled(s, Login(d))
  {
    var row := s.server.rows[d];
    var r' := Imported(s.rings[d], row.index, row.sealed.key);
    s.(rings := s.rings[d := r'],
       messages := s.messages + if r'.active in r'.keys then {MacUpdate(d, r'.active, OwnMac(d, r'.keys[r'.active]))} else {})
  }

  /** One step; an action that is not enabled changes nothing. */
  ghost function Apply(s: Net, a: Action): Net {
    if !Enabled(s, a) then s else
    match a
    case SendProposal(d) => s.(messages := s.messages + {Propose(d, s.rings[d].active + 1)})
    case ServeProposal(m) => ProposalServed(s, m)
    case TakeDeviceKeys(m) => DeviceKeysTaken(s, m)
    case ServeNewKey(m) => NewKeyServed(s, m)
    case TakeConfirmation(m) => s.(rings := s.rings[m.d := Activated(s.rings[m.d], m.index)])
    case Login(d) => LoggedIn(s, d)
    case SendMac(d) =>
      s.(messages := s.messages + {MacUpdate(d, s.rings[d].active, OwnMac(d, s.rings[d].keys[s.rings[d].active]))})
    case ServeMac(m) => s.(server := MacUpdated(s.rings.Keys, s.server, m.d, m.index, m.mac))
    case Lose(m) => s.(messages := s.messages - {m})
  }

  ghost function After(s: Net, run: seq<Action>): Net
    decreases |run|
  {
    if run == [] then s else After(Apply(s, run[0]), run[1..])
  }

  /** The start: some keys were in use before, all devices use the newest, nothing is under way. */
  ghost predicate IsInitial(s: Net) {
    && s.rings != map[]
    && s.history != []
    && s.server.count == |s.history| - 1
    && s.server.rows == map[]
    && s.messages == {}
    && (forall i, j :: 0 <= i < j < |s.history| ==> s.history[i] != s.history[j])
    && (forall i :: 0 <= i < |s.history| ==> s.history[i].nonce < s.nonce)
    && s.server.macs.Keys == s.rings.Keys
    && (forall d :: d in s.rings ==>
          var newest := s.history[s.server.count];
          s.rings[d] == Ring(s.server.count, map[s.server.count := newest], None)
          && s.server.macs[d] == OwnMac(d, newest))
  }

  // ---- the server's compare-and-swap, in every run

  /** Every waiting key change carries the current count, and whoever may still rotate from the
      current count was answered while nothing was waiting. */
  ghost predicate SwapInv(s: Net) {
    && |s.history| == s.server.count + 1
    && (forall m :: m in s.messages ==> m.d in s.rings)
    && s.server.rows.Keys <= s.rings.Keys
    && (forall d :: d in s.server.rows ==> s.server.rows[d].index == s.server.count)
    && (forall m :: m in s.messages && (m.DeviceKeys? || m.NewKey?) ==>
          m.index <= s.server.count + 1 && (m.index == s.server.count + 1 ==> s.server.rows == map[]))
    && (forall m :: m in s.messages && (m.Duplicate? || m.NewKeyAck?) ==> m.index <= s.server.count)
    && (forall m :: m in s.messages && m.NewKey? ==> m.updates.Keys <= s.rings.Keys)
    && (forall m :: m in s.messages && m.DeviceKeys? ==> m.macs.Keys <= s.rings.Keys)
  }

  lemma ProposalKeepsSwap(s: Net, m: Message)
    requires SwapInv(s) && m.Propose? && m in s.messages
    ensures SwapInv(ProposalServed(s, m))
  {
    if m.index == s.server.count + 1 {
      assert s.server.rows.Keys * s.rings.Keys == s.server.rows.Keys;
      if s.server.rows.Keys == {} { assert s.server.rows == map[]; }
    }
  }

  lemma RotationKeepsSwap(s: Net, m: Message)
    requires SwapInv(s) && m.NewKey? && m in s.messages
    ensures SwapInv(NewKeyServed(s, m))
  {}

  lemma MacKeepsSwap(s: Net, m: Message)
    requires SwapInv(s) && m.MacUpdate? && m in s.messages
    ensures SwapInv(s.(server := MacUpdated(s.rings.Keys, s.server, m.d, m.index, m.mac)))
  {}

  lemma StepKeepsSwap(s: Net, a: Action)
    requires SwapInv(s)
    ensures SwapInv(Apply(s, a))
  {
    if Enabled(s, a) {
      match a
      case ServeProposal(m) => ProposalKeepsSwap(s, m);
      case ServeNewKey(m) => RotationKeepsSwap(s, m);
      case ServeMac(m) => MacKeepsSwap(s, m);
      case _ =>
    }
  }

  lemma {:induction false} RunKeepsSwap(s: Net, run: seq<Action>)
    requires SwapInv(s)
    ensures SwapInv(After(s, run))
    decreases |run|
  {
    if run != [] {
      StepKeepsSwap(s, run[0]);
      RunKeepsSwap(Apply(s, run[0]), run[1..]);
    }
  }

  /** Rotation is a compare-and-swap: after any run, a new key is accepted exactly if it is for
      the next index; then no key change was waiting, so that no device can have two, and the
      count grows by one.  Otherwise nothing changes. */
  lemma RotationIsCompareAndSwap(s0: Net, run: seq<Action>, m: Message)
    requires IsInitial(s0) && m.NewKey? && m in After(s0, run).messages
    ensures
      var s := After(s0, run);
      var s' := Apply(s, ServeNewKey(m));
      && (forall d :: d in s.server.rows ==> s.server.rows[d].index == s.server.count)
      && (CanRotate(s.rings.Keys, s.server, m.d, m.index, m.updates) <==> m.index == s.server.count + 1)
      && (m.index == s.server.count + 1 ==>
            s.server.rows == map[] && s'.server.count == s.server.count + 1
            && s'.server.rows.Keys == m.updates.Keys && s'.history == s.history + [m.cmac.under])
      && (m.index != s.server.count + 1 ==> s' == s)
  {
    assert SwapInv(s0);
    RunKeepsSwap(s0, run);
  }
}
