/** The data index of one device: the table of all objects with its event log triggers, and
    every operation that writes to it. */
module LocalStores {
  import opened Rows

  /** A row of the table.  `file` stands for the stored file and what is in it. */
  datatype IndexRow = IndexRow(version: nat, file: Option<Json>, checksum: Option<int>, changed: bool)

  /** A row of the event log. */
  datatype Event = Event(seqId: nat, key: ObjectKey, version: nat, removed: bool)

  datatype ChangeType = Exists | ExistsDeleted | NoExists

  function Abs(row: IndexRow): Row {
    Row(Entry(row.version, if row.file.Some? then Live(row.file.value) else Tombstone), row.changed)
  }

  /** The log against the table it logs: no event is ahead of its row, versions of one key
      grow along the log, and every row has an event with its version and deletion flag. */
  ghost predicate LogAgrees(index: map<ObjectKey, IndexRow>, log: seq<Event>) {
    && (forall i :: 0 <= i < |log| ==> log[i].seqId == i + 1)
    && (forall i :: 0 <= i < |log| ==> log[i].key in index && log[i].version <= index[log[i].key].version)
    && (forall i, j :: 0 <= i < j < |log| && log[i].key == log[j].key ==> log[i].version < log[j].version)
    && (forall k :: k in index ==> HasCurrentEvent(index[k], k, log))
  }

  ghost predicate HasCurrentEvent(row: IndexRow, key: ObjectKey, log: seq<Event>) {
    exists i :: 0 <= i < |log| && log[i].key == key && log[i].version == row.version
                && log[i].removed == row.file.None?
  }

  /** The weaker agreement that every store keeps: the last event of each key that is still in the
      table has the version and deletion flag of its row. */
  ghost predicate LogCurrent(index: map<ObjectKey, IndexRow>, log: seq<Event>) {
    && (forall i :: 0 <= i < |log| ==> log[i].seqId == i + 1)
    && (forall k :: k in index ==> exists i :: IsLastEvent(index[k], k, log, i))
  }

  ghost predicate IsLastEvent(row: IndexRow, key: ObjectKey, log: seq<Event>, i: int) {
    && 0 <= i < |log| && log[i].key == key && log[i].version == row.version && log[i].removed == row.file.None?
    && forall j :: i < j < |log| ==> log[j].key != key
  }

  /** A write that the trigger ignores neither deletes nor restores. */
  ghost predicate Loggable(index: map<ObjectKey, IndexRow>, key: ObjectKey, row: IndexRow) {
    key in index && index[key].version == row.version ==> (index[key].file.None? <==> row.file.None?)
  }

  ghost predicate Grows(index: map<ObjectKey, IndexRow>, key: ObjectKey, row: IndexRow) {
    key in index ==>
      index[key].version < row.version || (index[key].version == row.version && index[key].file == row.file)
  }

  /** The event the triggers add when `row` is written under `key`. */
  function Logged(index: map<ObjectKey, IndexRow>, key: ObjectKey, row: IndexRow, log: seq<Event>): seq<Event> {
    if key in index && index[key].version == row.version then log
    else log + [Event(|log| + 1, key, row.version, row.file.None?)]
  }

  lemma WritingKeepsEvents(index: map<ObjectKey, IndexRow>, log: seq<Event>, key: ObjectKey, row: IndexRow)
    requires LogAgrees(index, log) && Grows(index, key, row)
    ensures var index', log' := index[key := row], Logged(index, key, row, log);
      forall k :: k in index' ==> HasCurrentEvent(index'[k], k, log')
  {
    var index', log' := index[key := row], Logged(index, key, row, log);
    forall k | k in index' ensures HasCurrentEvent(index'[k], k, log') {
      if k == key && log' != log {
        assert log'[|log|] == Event(|log| + 1, key, row.version, row.file.None?);
      } else {
        var i :| 0 <= i < |log| && log[i].key == k && log[i].version == index[k].version
                 && log[i].removed == index[k].file.None?;
        assert log'[i] == log[i];
      }
    }
  }

  lemma WritingKeepsLog(index: map<ObjectKey, IndexRow>, log: seq<Event>, key: ObjectKey, row: IndexRow)
    requires LogAgrees(index, log) && Grows(index, key, row)
    ensures LogAgrees(index[key := row], Logged(index, key, row, log))
  {
    WritingKeepsEvents(index, log, key, row);
  }

  lemma WritingKeepsCurrent(index: map<ObjectKey, IndexRow>, log: seq<Event>, key: ObjectKey, row: IndexRow)
    requires LogCurrent(index, log) && Loggable(index, key, row)
    ensures LogCurrent(index[key := row], Logged(index, key, row, log))
  {
    var index', log' := index[key := row], Logged(index, key, row, log);
    forall k | k in index' ensures exists i :: IsLastEvent(index'[k], k, log', i) {
      if k == key && log' != log {
        assert IsLastEvent(row, key, log', |log|);
      } else {
        var i :| IsLastEvent(index[k], k, log, i);
        assert IsLastEvent(index'[k], k, log', i);
      }
    }
  }

  lemma WritingKeepsBoth(index: map<ObjectKey, IndexRow>, log: seq<Event>, key: ObjectKey, row: IndexRow)
    requires Grows(index, key, row)
    ensures var index', log' := index[key := row], Logged(index, key, row, log);
      (LogCurrent(index, log) ==> LogCurrent(index', log')) && (LogAgrees(index, log) ==> LogAgrees(index', log'))
  {
    if LogCurrent(index, log) { WritingKeepsCurrent(index, log, key, row); }
    if LogAgrees(index, log) { WritingKeepsLog(index, log, key, row); }
  }

  function RowIn(index: map<ObjectKey, IndexRow>, key: ObjectKey): Option<Row> {
    if key in index then Some(Abs(index[key])) else None
  }

  /** Every live object of the type has been deleted except those still to do. */
  ghost predicate ClearedTo(before: map<ObjectKey, IndexRow>, index: map<ObjectKey, IndexRow>, typeName: string, todo: set<ObjectKey>) {
    forall k: ObjectKey ::
      RowIn(index, k) == (if k.typeName == typeName && k !in todo then Rows.Removed(RowIn(before, k)) else RowIn(before, k))
  }

  function LiveOf(index: map<ObjectKey, IndexRow>, typeName: string): set<ObjectKey> {
    set k | k in index && k.typeName == typeName && index[k].file.Some?
  }

  lemma ClearStart(index: map<ObjectKey, IndexRow>, typeName: string)
    ensures ClearedTo(index, index, typeName, LiveOf(index, typeName))
  {}

  lemma ClearStep(before: map<ObjectKey, IndexRow>, index: map<ObjectKey, IndexRow>, index': map<ObjectKey, IndexRow>,
      typeName: string, todo: set<ObjectKey>, key: ObjectKey)
    requires ClearedTo(before, index, typeName, todo) && key in todo && key.typeName == typeName
    requires RowIn(index', key) == Rows.Removed(RowIn(index, key))
    requires forall k: ObjectKey :: k != key ==> RowIn(index', k) == RowIn(index, k)
    ensures ClearedTo(before, index', typeName, todo - {key})
  {}

  class LocalStore {
    const config: Config
    var index: map<ObjectKey, IndexRow>
    var log: seq<Event>

    constructor (config: Config)
      ensures this.config == config && index == map[] && log == []
      ensures Valid()
    {
      this.config, index, log := config, map[], [];
    }

    ghost predicate WellFormed()
      reads this
    {
      forall k :: k in index ==>
        index[k].checksum == if index[k].file.Some? then Some(config.checksum(index[k].file.value)) else None
    }

    ghost predicate Valid()
      reads this
    {
      WellFormed() && LogCurrent(index, log) && (config.persistDeleted ==> LogAgrees(index, log))
    }

    function RowAt(key: ObjectKey): Option<Row>
      reads this
    {
      RowIn(index, key)
    }

    /** A write of `version` would be news for `key`. */
    ghost predicate Older(key: ObjectKey, version: nat)
      reads this
    {
      key in index ==> index[key].version < version
    }

    /** Everything but `key` is as it was. */
    twostate predicate OnlyTouches(key: ObjectKey)
      reads this
    {
      forall k: ObjectKey :: k != key ==> RowAt(k) == old(RowAt(k))
    }

    // ---- writing, with the triggers eventlog_INSERT and eventlog_UPDATE

    /** INSERT or UPDATE of one row; the trigger on UPDATE ignores an unchanged version. */
    method Write(key: ObjectKey, row: IndexRow)
      modifies this
      ensures index == old(index)[key := row]
      ensures log == Logged(old(index), key, row, old(log))
      ensures log == if old(key in index && index[key].version == row.version) then old(log)
                     else old(log) + [Event(|old(log)| + 1, key, row.version, row.file.None?)]
      ensures old(Valid()) && WellFormed() && Grows(old(index), key, row) ==> Valid()
    {
      if Grows(index, key, row) { WritingKeepsBoth(index, log, key, row); }
      var logged := key !in index || row.version != index[key].version;
      index := index[key := row];
      if logged {
        log := log + [Event(|log| + 1, key, row.version, row.file.None?)];
      }
    }

    /** Stores `data`, whether the row exists or not. */
    method StoreChangedImpl(key: ObjectKey, version: nat, data: Json, changed: bool)
      requires WellFormed()
      modifies this
      ensures WellFormed() && OnlyTouches(key)
      ensures RowAt(key) == Some(Row(Entry(version, Live(data)), changed))
      ensures old(Valid() && Older(key, version)) ==> Valid()
      ensures old(Older(key, version)) ==> log == old(log) + [Event(|old(log)| + 1, key, version, false)]
    {
      Write(key, IndexRow(version, Some(data), Some(config.checksum(data)), changed));
    }

    // ---- the public interface

    /** Saves `data` under `key`: a new object starts at version 1, an old one, deleted or
        not, moves on by one. */
    method Save(key: ObjectKey, data: Json)
      requires Valid()
      modifies this
      ensures Valid() && OnlyTouches(key)
      ensures RowAt(key) == Some(Saved(old(RowAt(key)), data))
      ensures var v := if old(RowAt(key)).None? then 1 else old(RowAt(key)).value.entry.version + 1;
        && RowAt(key) == Some(Row(Entry(v, Live(data)), true))
        && log == old(log) + [Event(|old(log)| + 1, key, v, false)]
    {
      var version := 1;
      if key in index {
        version := index[key].version + 1;
      }
      StoreChangedImpl(key, version, data, true);
    }

    method Remove(key: ObjectKey) returns (removed: bool)
      requires Valid()
      modifies this
      ensures Valid() && OnlyTouches(key)
      ensures RowAt(key) == Rows.Removed(old(RowAt(key)))
      ensures removed <==> old(RowAt(key).Some? && RowAt(key).value.entry.content.Live?)
      ensures removed ==>
        var v := old(RowAt(key)).value.entry.version + 1;
        && RowAt(key) == Some(Row(Entry(v, Tombstone), true))
        && log == old(log) + [Event(|old(log)| + 1, key, v, true)]
      ensures !removed ==> RowAt(key) == old(RowAt(key)) && log == old(log)
    {
      removed := false;
      if key in index && index[key].file.Some? {
        Write(key, IndexRow(index[key].version + 1, None, None, true));
        removed := true;
      }
    }

    /** One row of the loop. */
    method RemoveOne(key: ObjectKey)
      requires Valid()
      modifies this
      ensures Valid() && RowIn(index, key) == Rows.Removed(RowIn(old(index), key))
      ensures forall k: ObjectKey :: k != key ==> RowIn(index, k) == RowIn(old(index), k)
    {
      var _ := Remove(key);
      assert forall k: ObjectKey :: k != key ==> RowAt(k) == RowIn(old(index), k);
    }

    /** Deletes every live object of a type, each as `Remove` would. */
    method Clear(typeName: string)
      requires Valid()
      modifies this
      ensures Valid()
      ensures forall k: ObjectKey ::
        RowAt(k) == (if k.typeName == typeName then Rows.Removed(old(RowAt(k))) else old(RowAt(k)))
      ensures forall k: ObjectKey ::
        var row := old(RowAt(k));
        RowAt(k) == if k.typeName == typeName && row.Some? && row.value.entry.content.Live?
                    then Some(Row(Entry(row.value.entry.version + 1, Tombstone), true)) else row
    {
      var todo := LiveOf(index, typeName);
      ghost var before := index;
      ClearStart(before, typeName);
      while todo != {}
        invariant Valid()
        invariant forall k :: k in todo ==> k.typeName == typeName
        invariant ClearedTo(before, index, typeName, todo)
        decreases todo
      {
        var key :| key in todo;
        ghost var index1 := index;
        RemoveOne(key);
        ClearStep(before, index1, index, typeName, todo, key);
        todo := todo - {key};
      }
    }

    /** The acknowledgement of an upload; the version guards against a row that moved on. */
    method MarkUnchanged(key: ObjectKey, version: nat, isDelete: bool)
      requires WellFormed()
      modifies this
      ensures WellFormed() && OnlyTouches(key)
      ensures old(Valid()) ==> Valid()
      ensures RowAt(key) == MarkedUnchanged(config, old(RowAt(key)), version, isDelete)
      ensures var row := old(RowAt(key));
        if row.None? || row.value.entry.version != version then RowAt(key) == row
        else if isDelete && !config.persistDeleted then RowAt(key) == if row.value.entry.content.Tombstone? then None else row
        else RowAt(key) == Some(Row(row.value.entry, false))
      ensures log == old(log) && index.Keys <= old(index.Keys)
    {
      if isDelete && !config.persistDeleted {
        if key in index && index[key].version == version && index[key].file.None? {
          index := index - {key};
        }
      } else if key in index && index[key].version == version {
        Write(key, index[key].(changed := false));
      }
    }

    // ---- the interface of a sync

    method LoadChangeInfo(key: ObjectKey)
      returns (state: ChangeType, version: nat, file: Option<Json>, checksum: Option<int>)
      ensures RowAt(key).None? <==> state == NoExists
      ensures state == Exists <==> RowAt(key).Some? && RowAt(key).value.entry.content.Live?
      ensures state == ExistsDeleted <==> RowAt(key).Some? && RowAt(key).value.entry.content.Tombstone?
      ensures state != NoExists ==> version == RowAt(key).value.entry.version
      ensures state == Exists ==> file == Some(RowAt(key).value.entry.content.data)
      ensures state == Exists && WellFormed() ==>
        checksum == Some(config.checksum(RowAt(key).value.entry.content.data))
    {
      if key in index {
        var row := index[key];
        if row.file.None? {
          return ExistsDeleted, row.version, None, None;
        } else {
          return Exists, row.version, row.file, row.checksum;
        }
      } else {
        return NoExists, 0, None, None;
      }
    }

    method UpdateVersion(key: ObjectKey, oldVersion: nat, newVersion: nat, changed: bool)
      requires WellFormed()
      modifies this
      ensures WellFormed() && OnlyTouches(key)
      ensures RowAt(key) ==
        if old(RowAt(key)).Some? && old(RowAt(key)).value.entry.version == oldVersion then
          Some(Row(Entry(newVersion, old(RowAt(key)).value.entry.content), changed))
        else old(RowAt(key))
      ensures old(Valid()) && oldVersion <= newVersion ==> Valid()
    {
      if key in index && index[key].version == oldVersion {
        Write(key, index[key].(version := newVersion, changed := changed));
      }
    }

    method StoreChanged(key: ObjectKey, version: nat, data: Json, changed: bool, localState: ChangeType)
      requires WellFormed()
      requires localState != NoExists <==> key in index
      modifies this
      ensures WellFormed() && OnlyTouches(key)
      ensures RowAt(key) == Some(Row(Entry(version, Live(data)), changed))
      ensures old(Valid() && Older(key, version)) ==> Valid()
    {
      StoreChangedImpl(key, version, data, changed);
    }

    method StoreDeleted(key: ObjectKey, version: nat, changed: bool, localState: ChangeType)
      requires WellFormed()
      requires localState != NoExists <==> key in index
      modifies this
      ensures WellFormed() && OnlyTouches(key)
      ensures RowAt(key) == Some(Row(Entry(version, Tombstone), changed))
      ensures old(Valid() && Older(key, version)) ==> Valid()
    {
      Write(key, IndexRow(version, None, None, changed));
    }
  }
}
