/** The merge of a downloaded change, branch by branch as the controller performs it on the
    local store, and proved to be `Rows.Synced`. */
module SyncControllers {
  import opened Rows
  import opened Merge
  import opened LocalStores

  class SyncController {
    const store: LocalStore
    var enabled: bool

    constructor (store: LocalStore)
      ensures this.store == store && !enabled
    {
      this.store, enabled := store, false;
    }

    method SetSyncEnabled(enabled: bool)
      modifies this`enabled
      ensures this.enabled == enabled
    {
      this.enabled := enabled;
    }

    /** The local object exists. */
    method SyncExisting(key: ObjectKey, remote: Entry, version: nat, data: Json, checksum: int)
      requires store.Valid() && IdealChecksum(store.config) && checksum == store.config.checksum(data)
      requires store.RowAt(key).Some? && store.RowAt(key).value.entry == Entry(version, Live(data))
      modifies store
      ensures store.Valid() && store.OnlyTouches(key)
      ensures store.RowAt(key) == Synced(store.config, old(store.RowAt(key)), remote)
    {
      var cfg := store.config;
      if remote.content.Tombstone? {
        if version < remote.version {
          store.StoreDeleted(key, remote.version, !cfg.persistDeleted, Exists);
        } else if version == remote.version {
          match cfg.policy
          case PreferChanged => store.UpdateVersion(key, version, version + 1, true);
          case PreferDeleted => store.StoreDeleted(key, remote.version + 1, true, Exists);
        }
      } else {
        SyncTwoObjects(key, remote.version, remote.content.data, version, data, checksum);
      }
    }

    /** Both sides have an object. */
    method SyncTwoObjects(key: ObjectKey, remoteVersion: nat, remoteData: Json, version: nat, data: Json, checksum: int)
      requires store.Valid() && IdealChecksum(store.config) && checksum == store.config.checksum(data)
      requires store.RowAt(key).Some? && store.RowAt(key).value.entry == Entry(version, Live(data))
      modifies store
      ensures store.Valid() && store.OnlyTouches(key)
      ensures store.RowAt(key) == Synced(store.config, old(store.RowAt(key)), Entry(remoteVersion, Live(remoteData)))
    {
      var cfg := store.config;
      if version < remoteVersion {
        store.StoreChanged(key, remoteVersion, remoteData, false, Exists);
      } else if version == remoteVersion {
        var remoteChecksum := cfg.checksum(remoteData);
        if checksum != remoteChecksum {
          var resolved := cfg.resolver(data, remoteData);
          if resolved.Some? {
            store.StoreChanged(key, version + 1, resolved.value, true, Exists);
          } else if checksum > remoteChecksum {
            store.UpdateVersion(key, version, version + 1, true);
          } else {
            store.StoreChanged(key, remoteVersion + 1, remoteData, true, Exists);
          }
        } else {
          store.MarkUnchanged(key, version, false);
        }
      }
    }

    /** The local object is deleted, and that is still stored. */
    method SyncDeleted(key: ObjectKey, remote: Entry, version: nat)
      requires store.Valid()
      requires store.RowAt(key).Some? && store.RowAt(key).value.entry == Entry(version, Tombstone)
      modifies store
      ensures store.Valid() && store.OnlyTouches(key)
      ensures store.RowAt(key) == Synced(store.config, old(store.RowAt(key)), remote)
    {
      var cfg := store.config;
      if remote.content.Tombstone? {
        if version <= remote.version {
          if cfg.persistDeleted {
            store.UpdateVersion(key, version, remote.version, false);
          } else {
            store.MarkUnchanged(key, version, true);
          }
        }
      } else if version < remote.version {
        store.StoreChanged(key, remote.version, remote.content.data, false, ExistsDeleted);
      } else if version == remote.version {
        match cfg.policy
        case PreferChanged => store.StoreChanged(key, remote.version + 1, remote.content.data, true, ExistsDeleted);
        case PreferDeleted => store.UpdateVersion(key, version, version + 1, true);
      }
    }

    /** There is no local object. */
    method SyncMissing(key: ObjectKey, remote: Entry)
      requires store.Valid() && store.RowAt(key).None?
      modifies store
      ensures store.Valid() && store.OnlyTouches(key)
      ensures store.RowAt(key) == Synced(store.config, None, remote)
    {
      if remote.content.Tombstone? {
        if store.config.persistDeleted {
          store.StoreDeleted(key, remote.version, false, NoExists);
        }
      } else {
        store.StoreChanged(key, remote.version, remote.content.data, false, NoExists);
      }
    }

    /** Answers whether the change was merged and may be acknowledged. */
    method SyncChange(key: ObjectKey, remote: Entry) returns (done: bool)
      requires store.Valid() && IdealChecksum(store.config)
      modifies store
      ensures store.Valid() && store.OnlyTouches(key)
      ensures done == enabled
      ensures store.RowAt(key) ==
        if enabled then Synced(store.config, old(store.RowAt(key)), remote) else old(store.RowAt(key))
      ensures enabled ==> MergedAs(store.config, old(store.RowAt(key)), remote, store.RowAt(key))
    {
      if !enabled {
        return false;
      }
      done := true;
      var localState, localVersion, localFile, localChecksum := store.LoadChangeInfo(key);
      match localState
      case Exists => SyncExisting(key, remote, localVersion, localFile.value, localChecksum.value);
      case ExistsDeleted => SyncDeleted(key, remote, localVersion);
      case NoExists => SyncMissing(key, remote);
      SyncedIff(store.config, old(store.RowAt(key)), remote, store.RowAt(key));
    }
  }
}
