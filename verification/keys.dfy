/** The exchange keys of an account: the key ring of a device and the key tables of the server,
    with the operations of both and what they compute.

    Cryptography is ideal: a key is known by the device that made it and a nonce, a sealed key
    can be opened by its recipient only, and a MAC tells under which key it was made and what
    it vouches for.
 */
module Keys {
  import opened Collections
  import opened Rows

  type Device = nat

  datatype Key = Key(creator: Device, nonce: nat)

  datatype SealedKey = SealedKey(recipient: Device, key: Key)

  datatype Claim =
    | NewKeyFor(index: nat, device: Device, sealed: SealedKey)
    | HasPublicKey(device: Device)

  datatype Mac = Mac(under: Key, claim: Claim)

  // ---- the key ring of a device

  /** `active` is the index of the key in use and `proposal` the index of a generated key that
      the server has not confirmed yet. */
  datatype Ring = Ring(active: nat, keys: map<nat, Key>, proposal: Option<nat>)

  /** How many old keys a device keeps besides the active one. */
  const KEPT_KEYS := 5

  ghost predicate RingOk(r: Ring) {
    r.active in r.keys && (r.proposal.Some? && r.proposal.value > r.active ==> r.proposal.value in r.keys)
  }

  function Cleaned(r: Ring): Ring {
    r.(keys := map i | i in r.keys && !(i + KEPT_KEYS < r.active) :: r.keys[i])
  }

  /** A proposal for the next index is reused, otherwise `newKey` becomes the proposal. */
  function Generated(r: Ring, newKey: Key): Ring {
    if r.proposal == Some(r.active + 1) then r
    else r.(keys := r.keys[r.active + 1 := newKey], proposal := Some(r.active + 1))
  }

  /** Only the stored proposal for the next index can be activated. */
  function Activated(r: Ring, index: nat): Ring {
    if index == r.active + 1 && r.proposal == Some(index) && index in r.keys then
      Cleaned(r.(active := index, proposal := None))
    else r
  }

  function Imported(r: Ring, index: nat, key: Key): Ring {
    var r' := r.(keys := r.keys[index := key]);
    if index > r.active then Cleaned(r'.(active := index)) else r'
  }

  class KeyRing {
    const device: Device
    var localCipher: nat
    var ciphers: map<nat, Key>
    var nextSymKey: Option<nat>

    constructor (device: Device, index: nat, key: Key)
      ensures this.device == device && Abs() == Ring(index, map[index := key], None) && RingOk(Abs())
    {
      this.device, localCipher, ciphers, nextSymKey := device, index, map[index := key], None;
    }

    function Abs(): Ring
      reads this
    {
      Ring(localCipher, ciphers, nextSymKey)
    }

    /** The keys are those of `from`, without the ones more than five rotations old if `cleaned`. */
    ghost predicate KeptFrom(from: map<nat, Key>, cleaned: bool)
      reads this
    {
      && (forall i :: i in ciphers <==> i in from && (cleaned ==> i + 5 >= localCipher))
      && (forall i :: i in ciphers ==> ciphers[i] == from[i])
    }

    /** Drops every key that is more than five rotations old. */
    method CleanCiphers()
      modifies this`ciphers
      ensures Abs() == Cleaned(old(Abs()))
      ensures KeptFrom(old(ciphers), true)
    {
      var todo := ciphers.Keys;
      while todo != {}
        invariant todo <= ciphers.Keys <= old(ciphers.Keys)
        invariant forall i :: i in ciphers ==> ciphers[i] == old(ciphers)[i]
        invariant forall i :: i in old(ciphers) && i !in todo ==> (i in ciphers <==> !(i + KEPT_KEYS < localCipher))
        decreases todo
      {
        var i :| i in todo;
        if i + KEPT_KEYS < localCipher {
          ciphers := ciphers - {i};
        }
        todo := todo - {i};
      }
      assert ciphers == Cleaned(old(Abs())).keys;
    }

    method GenerateNextKey(newKey: Key) returns (index: nat)
      requires RingOk(Abs())
      modifies this
      ensures Abs() == Generated(old(Abs()), newKey) && RingOk(Abs())
      ensures index == localCipher + 1 && index in ciphers
      ensures localCipher == old(localCipher) && nextSymKey == Some(index)
      ensures ciphers == if old(nextSymKey) == Some(index) then old(ciphers) else old(ciphers)[index := newKey]
    {
      index := localCipher + 1;
      if nextSymKey != Some(index) {
        ciphers := ciphers[index := newKey];
        nextSymKey := Some(index);
      }
    }

    method ActivateNextKey(index: nat)
      requires RingOk(Abs())
      modifies this
      ensures Abs() == Activated(old(Abs()), index) && RingOk(Abs())
      ensures if old(nextSymKey) == Some(index) && index == old(localCipher) + 1
              then localCipher == index && nextSymKey == None && KeptFrom(old(ciphers), true)
              else localCipher == old(localCipher) && nextSymKey == old(nextSymKey) && ciphers == old(ciphers)
    {
      if localCipher + 1 != index || nextSymKey != Some(index) || index !in ciphers {
        return;
      }
      localCipher := index;
      nextSymKey := None;
      CleanCiphers();
    }

    /** Imports a sealed key; sealed for someone else it cannot be opened. */
    method DecryptSecretKey(index: nat, sealed: SealedKey) returns (ok: bool)
      requires RingOk(Abs())
      modifies this
      ensures ok == (sealed.recipient == device)
      ensures Abs() == if ok then Imported(old(Abs()), index, sealed.key) else old(Abs())
      ensures RingOk(Abs())
      ensures nextSymKey == old(nextSymKey)
      ensures localCipher == if ok && index > old(localCipher) then index else old(localCipher)
      ensures if ok then KeptFrom(old(ciphers)[index := sealed.key], index > old(localCipher)) else ciphers == old(ciphers)
    {
      if sealed.recipient != device {
        return false;
      }
      ciphers := ciphers[index := sealed.key];
      if index > localCipher {
        localCipher := index;
        CleanCiphers();
      }
      return true;
    }
  }

  // ---- the key tables of the server

  datatype KeyRow = KeyRow(index: nat, sealed: SealedKey, mac: Mac)

  datatype KeyUpdate = KeyUpdate(sealed: SealedKey, mac: Mac)

  /** `count` is the index of the newest key of the account, `rows` the key changes the devices
      still have to pick up, `macs` the proof of each device that it knows the newest key. */
  datatype Tables = Tables(count: nat, rows: map<Device, KeyRow>, macs: map<Device, Mac>)

  /** AnswerFailed is a database error: the proposer is no device of the account. */
  datatype Answer =
    | AnswerDevices(macs: map<Device, Mac>)
    | AnswerDuplicate
    | AnswerKeyPending
    | AnswerKeyIndex
    | AnswerFailed

  function Answered(devices: set<Device>, t: Tables, d: Device, proposed: nat): Answer {
    if d !in devices then AnswerFailed
    else if proposed == t.count + 1 then
      if t.rows.Keys * devices == {} then AnswerDevices(map x | x in t.macs && x in devices && x != d :: t.macs[x])
      else AnswerKeyPending
    else if proposed == t.count then AnswerDuplicate
    else if proposed + 1 == t.count then AnswerKeyPending
    else AnswerKeyIndex
  }

  function RowsOf(index: nat, updates: map<Device, KeyUpdate>): map<Device, KeyRow> {
    map x | x in updates :: KeyRow(index, updates[x].sealed, updates[x].mac)
  }

  ghost predicate CanRotate(devices: set<Device>, t: Tables, d: Device, index: nat, updates: map<Device, KeyUpdate>) {
    d in devices && index == t.count + 1 && updates.Keys <= devices && updates.Keys !! t.rows.Keys
  }

  /** A rotation: the count moves on by one, every listed device gets a row, and the proposer
      has proved that it knows the new key.  A refused one changes nothing. */
  ghost function Rotated(devices: set<Device>, t: Tables, d: Device, index: nat, cmac: Mac, updates: map<Device, KeyUpdate>): Tables {
    if !CanRotate(devices, t, d, index, updates) then t
    else Tables(index,
                t.rows + RowsOf(index, updates),
                t.macs[d := cmac])
  }

  function MacUpdated(devices: set<Device>, t: Tables, d: Device, index: nat, mac: Mac): Tables {
    if d !in devices || index != t.count then t
    else t.(macs := t.macs[d := mac],
            rows := if d in t.rows && t.rows[d].index == index then t.rows - {d} else t.rows)
  }

  datatype Outcome = Done | Refused | Failed

  /** Inserting the rows of a list one after the other; None if one of them is rejected. */
  ghost function Inserted(devices: set<Device>, rows: map<Device, KeyRow>, index: nat,
      list: seq<(Device, KeyUpdate)>): Option<map<Device, KeyRow>>
  {
    if list == [] then Some(rows)
    else
      var last := list[|list| - 1];
      match Inserted(devices, rows, index, list[..|list| - 1])
      case None => None
      case Some(m) =>
        if last.0 !in devices || last.0 in m then None
        else Some(m[last.0 := KeyRow(index, last.1.sealed, last.1.mac)])
  }

  /** The list names known devices without a row, each once. */
  ghost predicate Insertable(devices: set<Device>, rows: map<Device, KeyRow>, list: seq<(Device, KeyUpdate)>) {
    DistinctKeys(list) && AsMap(list).Keys <= devices && AsMap(list).Keys !! rows.Keys
  }

  lemma InsertableSplit(devices: set<Device>, rows: map<Device, KeyRow>, init: seq<(Device, KeyUpdate)>, last: (Device, KeyUpdate))
    ensures Insertable(devices, rows, init + [last]) <==>
            Insertable(devices, rows, init) && last.0 in devices && last.0 !in rows && last.0 !in AsMap(init)
  {
    DistinctKeysSplit(init, last);
  }

  lemma RowsOfSnoc(rows: map<Device, KeyRow>, index: nat, updates: map<Device, KeyUpdate>, last: (Device, KeyUpdate))
    ensures rows + RowsOf(index, updates[last.0 := last.1])
         == (rows + RowsOf(index, updates))[last.0 := KeyRow(index, last.1.sealed, last.1.mac)]
  {}

  lemma {:induction false} InsertedIff(devices: set<Device>, rows: map<Device, KeyRow>, index: nat, list: seq<(Device, KeyUpdate)>)
    ensures Inserted(devices, rows, index, list).Some? <==> Insertable(devices, rows, list)
    ensures Inserted(devices, rows, index, list).Some? ==>
            Inserted(devices, rows, index, list).value == rows + RowsOf(index, AsMap(list))
  {
    if list == [] {
      assert rows + RowsOf(index, AsMap(list)) == rows;
    } else {
      var init, last := list[..|list| - 1], list[|list| - 1];
      InsertedIff(devices, rows, index, init);
      assert list == init + [last];
      InsertableSplit(devices, rows, init, last);
      RowsOfSnoc(rows, index, AsMap(init), last);
    }
  }

  lemma {:induction false} RejectedStays(devices: set<Device>, rows: map<Device, KeyRow>, index: nat,
      list: seq<(Device, KeyUpdate)>, i: nat)
    requires i <= |list| && Inserted(devices, rows, index, list[..i]).None?
    ensures Inserted(devices, rows, index, list).None?
    decreases |list|
  {
    if i < |list| {
      assert list[..|list| - 1][..i] == list[..i];
      RejectedStays(devices, rows, index, list[..|list| - 1], i);
    } else {
      assert list[..i] == list;
    }
  }

  /** The rows are the former ones and one of the new index for each listed device. */
  ghost predicate RowsAdded(rows: map<Device, KeyRow>, index: nat, list: seq<(Device, KeyUpdate)>, rows': map<Device, KeyRow>) {
    && (forall x :: x in rows' <==> x in rows || exists i :: 0 <= i < |list| && list[i].0 == x)
    && (forall i :: 0 <= i < |list| && list[i].0 in rows' ==>
          rows'[list[i].0] == KeyRow(index, list[i].1.sealed, list[i].1.mac))
    && (forall x :: x in rows' && (forall i :: 0 <= i < |list| ==> list[i].0 != x) ==> x in rows && rows'[x] == rows[x])
  }

  /** Every listed device is known and has no row. */
  ghost predicate AllFree(devices: set<Device>, rows: map<Device, KeyRow>, list: seq<(Device, KeyUpdate)>) {
    forall i :: 0 <= i < |list| ==> list[i].0 in devices && list[i].0 !in rows
  }

  lemma InsertableIff(devices: set<Device>, rows: map<Device, KeyRow>, list: seq<(Device, KeyUpdate)>)
    ensures Insertable(devices, rows, list) <==> DistinctKeys(list) && AllFree(devices, rows, list)
  {
    AsMapKeys(list);
  }

  lemma RowsAreAdded(rows: map<Device, KeyRow>, index: nat, list: seq<(Device, KeyUpdate)>)
    requires DistinctKeys(list)
    ensures RowsAdded(rows, index, list, rows + RowsOf(index, AsMap(list)))
  {
    AsMapKeys(list);
  }

  /** A rotation is accepted exactly from a device of the account, for the next index and a list of
      known devices without a row, each once; it then adds their rows and the proposer's proof. */
  lemma RotatedIs(devices: set<Device>, t: Tables, d: Device, index: nat, cmac: Mac, list: seq<(Device, KeyUpdate)>)
    ensures DistinctKeys(list) && CanRotate(devices, t, d, index, AsMap(list)) <==>
            d in devices && index == t.count + 1 && DistinctKeys(list) && AllFree(devices, t.rows, list)
    ensures DistinctKeys(list) && CanRotate(devices, t, d, index, AsMap(list)) ==>
            var t' := Rotated(devices, t, d, index, cmac, AsMap(list));
            t'.count == index && t'.macs == t.macs[d := cmac] && RowsAdded(t.rows, index, list, t'.rows)
  {
    InsertableIff(devices, t.rows, list);
    if DistinctKeys(list) { RowsAreAdded(t.rows, index, list); }
  }

  class KeyServer {
    const devices: set<Device>
    var keycount: nat
    var keychanges: map<Device, KeyRow>
    var keymacs: map<Device, Mac>

    constructor (devices: set<Device>, keymacs: map<Device, Mac>)
      ensures this.devices == devices && Abs() == Tables(0, map[], keymacs)
    {
      this.devices, keycount, keychanges, this.keymacs := devices, 0, map[], keymacs;
    }

    function Abs(): Tables
      reads this
    {
      Tables(keycount, keychanges, keymacs)
    }

    /** Answers a proposal; never changes the tables. */
    method TryKeyChange(d: Device, proposed: nat) returns (answer: Answer)
      ensures answer == Answered(devices, Abs(), d, proposed)
      ensures answer.AnswerFailed? <==> d !in devices
      ensures d in devices ==>
        var waiting := exists x :: x in keychanges && x in devices;
        && (answer.AnswerDevices? <==> proposed == keycount + 1 && !waiting)
        && (answer.AnswerDuplicate? <==> proposed == keycount)
        && (answer.AnswerKeyPending? <==> proposed == keycount - 1 || (proposed == keycount + 1 && waiting))
        && (answer.AnswerKeyIndex? <==> proposed < keycount - 1 || proposed > keycount + 1)
      ensures answer.AnswerDevices? ==>
        && (forall x :: x in answer.macs <==> x in keymacs && x in devices && x != d)
        && (forall x :: x in answer.macs ==> answer.macs[x] == keymacs[x])
    {
      if d !in devices {
        return AnswerFailed;
      }
      var offset := proposed - keycount;
      if offset == 1 {
        var pending := set x | x in keychanges && x in devices;
        if pending != {} {
          offset := -1;
        }
        assert pending == keychanges.Keys * devices;
        if x :| x in keychanges && x in devices { assert x in pending; }
      }
      if offset == 1 {
        answer := AnswerDevices(map x | x in keymacs && x in devices && x != d :: keymacs[x]);
      } else if offset == 0 {
        answer := AnswerDuplicate;
      } else if offset == -1 {
        answer := AnswerKeyPending;
      } else {
        answer := AnswerKeyIndex;
      }
    }

    /** The transaction of a new key: the compare-and-swap on the count, then one row for each
        listed device; an unknown device or a second row for one device rolls everything back. */
    method UpdateExchangeKey(d: Device, index: nat, cmac: Mac, updates: seq<(Device, KeyUpdate)>) returns (outcome: Outcome)
      modifies this
      ensures outcome == Refused <==> d !in devices || index != old(keycount) + 1
      ensures outcome == Done <==>
        DistinctKeys(updates) && CanRotate(devices, old(Abs()), d, index, AsMap(updates))
      ensures outcome == Done ==> Abs() == Rotated(devices, old(Abs()), d, index, cmac, AsMap(updates))
      ensures outcome != Done ==> Abs() == old(Abs())
    {
      if d !in devices || keycount + 1 != index {
        return Refused;
      }
      var count0, rows0 := keycount, keychanges;
      keycount := keycount + 1;
      InsertedIff(devices, rows0, index, updates);
      for i := 0 to |updates|
        invariant Inserted(devices, rows0, index, updates[..i]) == Some(keychanges)
        invariant keycount == index && keymacs == old(keymacs)
      {
        var (device, update) := updates[i];
        assert updates[..i + 1][..i] == updates[..i];
        if device !in devices || device in keychanges {
          RejectedStays(devices, rows0, index, updates, i + 1);
          keycount, keychanges := count0, rows0;
          return Failed;
        }
        keychanges := keychanges[device := KeyRow(index, update.sealed, update.mac)];
      }
      assert updates[..|updates|] == updates;
      keymacs := keymacs[d := cmac];
      return Done;
    }

    method UpdateCmac(d: Device, index: nat, mac: Mac) returns (ok: bool)
      modifies this
      ensures ok == (d in devices && index == keycount)
      ensures Abs() == MacUpdated(devices, old(Abs()), d, index, mac)
      ensures keycount == old(keycount) && keymacs == if ok then old(keymacs)[d := mac] else old(keymacs)
      ensures keychanges == if ok && d in old(keychanges) && old(keychanges)[d].index == index
                            then old(keychanges) - {d} else old(keychanges)
    {
      ok := d in devices && index == keycount;
      if ok {
        keymacs := keymacs[d := mac];
        if d in keychanges && keychanges[d].index == index {
          keychanges := keychanges - {d};
        }
      }
    }
  }
}
