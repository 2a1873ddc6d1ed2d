/** How a device handles the messages of a key rotation, step by step on its key ring, and
    that this is what the step system of `KeyRotation` computes. */
module Connectors {
  import opened Collections
  import opened Rows
  import opened Keys
  import opened KeyRotation

  type DeviceMac = (Device, Mac)

  /** One more device: it is served exactly if its MAC proves the current key. */
  lemma OneMoreUpdate(macs: map<Device, Mac>, d: Device, mac: Mac, index: nat, current: Key, next: Key)
    requires d !in macs
    ensures UpdatesFor(macs[d := mac], index, current, next) ==
            if mac != OwnMac(d, current) then UpdatesFor(macs, index, current, next)
            else UpdatesFor(macs, index, current, next)[d :=
                   KeyUpdate(SealedKey(d, next), Mac(current, NewKeyFor(index, d, SealedKey(d, next))))]
  {}

  /** The next key, vouched for under the current one, goes to exactly the listed devices whose MAC
      proves the current key. */
  ghost predicate SealedFor(devices: seq<DeviceMac>, index: nat, current: Key, next: Key, updates: seq<(Device, KeyUpdate)>) {
    && (forall u :: u in updates ==>
          u.1 == KeyUpdate(SealedKey(u.0, next), Mac(current, NewKeyFor(index, u.0, SealedKey(u.0, next)))))
    && (forall d: Device :: (d, KeyUpdate(SealedKey(d, next), Mac(current, NewKeyFor(index, d, SealedKey(d, next))))) in updates
                    <==> (d, Mac(current, HasPublicKey(d))) in devices)
  }

  lemma SealedForSnoc(devices: seq<DeviceMac>, one: DeviceMac, index: nat, current: Key, next: Key,
      updates: seq<(Device, KeyUpdate)>)
    requires SealedFor(devices, index, current, next, updates)
    ensures
      var (d, mac) := one;
      var sealed := SealedKey(d, next);
      SealedFor(devices + [one], index, current, next,
                if mac == Mac(current, HasPublicKey(d))
                then updates + [(d, KeyUpdate(sealed, Mac(current, NewKeyFor(index, d, sealed))))] else updates)
  {}

  class Connector {
    const ring: KeyRing
    var sendCmac: bool

    constructor (ring: KeyRing)
      ensures this.ring == ring && !sendCmac
    {
      this.ring, sendCmac := ring, false;
    }

    /** The proof of this device for the active key; it is repeated at every login until the
        server confirms it. */
    method SendKeyUpdate() returns (reply: Message)
      requires RingOk(ring.Abs())
      modifies this`sendCmac
      ensures sendCmac
      ensures reply ==
        MacUpdate(ring.device, ring.localCipher, Mac(ring.ciphers[ring.localCipher], HasPublicKey(ring.device)))
    {
      sendCmac := true;
      reply := MacUpdate(ring.device, ring.localCipher, OwnMac(ring.device, ring.ciphers[ring.localCipher]));
    }

    /** Becoming idle, as a login is answered: a proposal that has not been confirmed is made again,
        for the key after the one in use at that time. */
    method OnEntryIdle() returns (reply: Option<Message>)
      ensures reply == if ring.Abs().proposal.Some? then Some(Propose(ring.device, ring.Abs().active + 1)) else None
    {
      if ring.nextSymKey.Some? {
        reply := Some(Propose(ring.device, ring.localCipher + 1));
      } else {
        reply := None;
      }
    }

    /** A login that brings a key change fails unless the active key vouches for it; a failed
        one imports nothing and sends no MAC update, not even one that is still due. */
    method OnWelcome(update: Option<KeyRow>) returns (accepted: bool, reply: Option<Message>)
      requires RingOk(ring.Abs())
      modifies this, ring
      ensures RingOk(ring.Abs())
      ensures accepted <==>
        update.None? || (
          && update.value.sealed.recipient == ring.device
          && update.value.mac == Mac(old(ring.ciphers[ring.localCipher]),
                                     NewKeyFor(update.value.index, ring.device, update.value.sealed)))
      ensures accepted <==> update.None? || WelcomeAccepted(old(ring.Abs()), ring.device, update.value)
      ensures ring.Abs() ==
        if accepted && update.Some? then Imported(old(ring.Abs()), update.value.index, update.value.sealed.key)
        else old(ring.Abs())
      ensures reply ==
        if accepted && (update.Some? || old(sendCmac)) then
          Some(MacUpdate(ring.device, ring.localCipher, Mac(ring.ciphers[ring.localCipher], HasPublicKey(ring.device))))
        else None
      ensures sendCmac == (old(sendCmac) || reply.Some?)
    {
      var keyUpdated := false;
      if update.Some? {
        var row := update.value;
        if row.mac != Mac(ring.ciphers[ring.localCipher], NewKeyFor(row.index, ring.device, row.sealed)) {
          return false, None;
        }
        var imported := ring.DecryptSecretKey(row.index, row.sealed);
        if !imported {
          return false, None;
        }
        keyUpdated := true;
      }
      accepted, reply := true, None;
      if keyUpdated || sendCmac {
        var m := SendKeyUpdate();
        reply := Some(m);
      }
    }

    method OnMacUpdateAck()
      modifies this`sendCmac
      ensures !sendCmac
    {
      sendCmac := false;
    }

    /** Seals the next key for every listed device that proves to know the current one. */
    method OnDeviceKeys(index: nat, duplicated: bool, devices: seq<DeviceMac>, newKey: Key)
      returns (next: nat, cmac: Option<Mac>, updates: seq<(Device, KeyUpdate)>)
      requires RingOk(ring.Abs())
      modifies ring
      ensures RingOk(ring.Abs())
      ensures duplicated ==> ring.Abs() == Activated(old(ring.Abs()), index) && cmac == None && updates == []
      ensures !duplicated ==>
        var r, r' := old(ring.Abs()), ring.Abs();
        && r' == Generated(r, newKey) && next == r.active + 1 && next in r'.keys
        && cmac == Some(OwnMac(ring.device, r'.keys[next]))
        && cmac == Some(Mac(r'.keys[next], HasPublicKey(ring.device)))
        && SealedFor(devices, next, r.keys[r.active], r'.keys[next], updates)
        && (DistinctKeys(devices) ==>
              AsMap(updates) == UpdatesFor(AsMap(devices), next, r.keys[r.active], r'.keys[next])
              && DistinctKeys(updates))
    {
      if duplicated {
        ring.ActivateNextKey(index);
        return index, None, [];
      }
      next := ring.GenerateNextKey(newKey);
      var current, nextKey := ring.ciphers[ring.localCipher], ring.ciphers[next];
      cmac, updates := Some(OwnMac(ring.device, nextKey)), [];
      ghost var r' := ring.Abs();
      for i := 0 to |devices|
        invariant ring.Abs() == r' && SealedFor(devices[..i], next, current, nextKey, updates)
        invariant DistinctKeys(devices) ==>
          AsMap(updates) == UpdatesFor(AsMap(devices[..i]), next, current, nextKey) && DistinctKeys(updates)
      {
        var (d, mac) := devices[i];
        ghost var updates0 := updates;
        SealedForSnoc(devices[..i], devices[i], next, current, nextKey, updates);
        assert devices[..i + 1] == devices[..i] + [devices[i]];
        if mac == OwnMac(d, current) {
          var sealed := SealedKey(d, nextKey);
          updates := updates + [(d, KeyUpdate(sealed, Mac(current, NewKeyFor(next, d, sealed))))];
        }
        if DistinctKeys(devices) {
          DistinctKeysSplit(devices[..i], devices[i]);
          DistinctKeysPrefix(devices, i + 1);
          OneMoreUpdate(AsMap(devices[..i]), d, mac, next, current, nextKey);
          if updates != updates0 {
            DistinctKeysSplit(updates0, updates[|updates| - 1]);
          }
        }
      }
      assert devices[..|devices|] == devices;
    }

    method OnNewKeyAck(index: nat)
      requires RingOk(ring.Abs())
      modifies ring
      ensures RingOk(ring.Abs()) && ring.Abs() == Activated(old(ring.Abs()), index)
    {
      ring.ActivateNextKey(index);
    }
  }
}
