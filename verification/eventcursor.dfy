/** The cursor over the event log: what a scan visits, and what replaying its events yields. */
module EventCursors {
  import opened Rows
  import opened LocalStores

  /** The condition of the query; an obsolete event does not have the version of its row. */
  predicate Shown(index: map<ObjectKey, IndexRow>, e: Event, skipObsolete: bool) {
    skipObsolete ==> e.key in index && e.version == index[e.key].version
  }

  function Filtered(index: map<ObjectKey, IndexRow>, log: seq<Event>, skipObsolete: bool): seq<Event> {
    if log == [] then []
    else
      var rest := Filtered(index, log[1..], skipObsolete);
      if Shown(index, log[0], skipObsolete) then [log[0]] + rest else rest
  }

  ghost predicate Numbered(log: seq<Event>) {
    forall i :: 0 <= i < |log| ==> log[i].seqId == i + 1
  }

  lemma {:induction false} FilteredIn(index: map<ObjectKey, IndexRow>, log: seq<Event>, skipObsolete: bool)
    ensures var v := Filtered(index, log, skipObsolete);
      && |v| <= |log|
      && (forall e :: e in v <==> e in log && Shown(index, e, skipObsolete))
  {
    if log != [] {
      FilteredIn(index, log[1..], skipObsolete);
      assert log == [log[0]] + log[1..];
    }
  }

  lemma {:induction false} FilteredSkip(index: map<ObjectKey, IndexRow>, log: seq<Event>, skipObsolete: bool, n: nat)
    requires n <= |log| && forall i :: 0 <= i < n ==> !Shown(index, log[i], skipObsolete)
    ensures Filtered(index, log, skipObsolete) == Filtered(index, log[n..], skipObsolete)
  {
    if n > 0 {
      FilteredSkip(index, log[1..], skipObsolete, n - 1);
      assert log[1..][n - 1..] == log[n..];
    } else {
      assert log[0..] == log;
    }
  }

  lemma FilteredNext(index: map<ObjectKey, IndexRow>, log: seq<Event>, skipObsolete: bool, from: nat, i: nat)
    requires from <= i < |log| && Shown(index, log[i], skipObsolete)
    requires forall k :: from <= k < i ==> !Shown(index, log[k], skipObsolete)
    ensures Filtered(index, log[from..], skipObsolete) == [log[i]] + Filtered(index, log[i + 1..], skipObsolete)
  {
    FilteredSkip(index, log[from..], skipObsolete, i - from);
    assert log[from..][i - from..] == log[i..] && log[i..][1..] == log[i + 1..];
  }

  lemma HeadMoves(visited: seq<Event>, rest: seq<Event>)
    requires rest != []
    ensures visited + rest == (visited + [rest[0]]) + rest[1..]
  {}

  class EventCursor {
    const store: LocalStore
    var index: nat
    var key: ObjectKey
    var wasRemoved: bool
    var skipObsolete: bool

    constructor (store: LocalStore)
      ensures this.store == store && index == 0 && !skipObsolete
    {
      this.store, index, key, wasRemoved, skipObsolete := store, 0, ObjectKey("", ""), false, false;
    }

    method SetSkipObsolete(skipObsolete: bool)
      modifies this`skipObsolete
      ensures this.skipObsolete == skipObsolete
    {
      this.skipObsolete := skipObsolete;
    }

    /** The events still to come. */
    function Remaining(): seq<Event>
      requires index <= |store.log|
      reads this, store
    {
      Filtered(store.index, store.log[index..], skipObsolete)
    }

    /** The row has another version than the event, or is gone. */
    ghost predicate Obsolete(e: Event)
      reads store
    {
      store.RowAt(e.key).None? || store.RowAt(e.key).value.entry.version != e.version
    }

    /** Moves to the next event that the query shows; stays where it is if there is none. */
    method Next() returns (found: bool)
      requires Numbered(store.log) && index <= |store.log|
      modifies this`index, this`key, this`wasRemoved
      ensures index <= |store.log| && (found <==> old(Remaining()) != [])
      ensures found ==>
        var e := old(Remaining())[0];
        && index == e.seqId > old(index) && key == e.key && wasRemoved == e.removed
        && Remaining() == old(Remaining())[1..] && e == store.log[index - 1]
      ensures !found ==> index == old(index) && key == old(key) && wasRemoved == old(wasRemoved)
      ensures found ==> 0 < index && !(skipObsolete && Obsolete(store.log[index - 1]))
      ensures forall k :: old(index) <= k < (if found then index - 1 else |store.log|) ==>
                skipObsolete && Obsolete(store.log[k])
    {
      ghost var log := store.log;
      var i := index;
      while i < |store.log|
        invariant index == old(index) <= i <= |store.log|
        invariant key == old(key) && wasRemoved == old(wasRemoved)
        invariant forall k :: index <= k < i ==> !Shown(store.index, log[k], skipObsolete)
      {
        var e := store.log[i];
        if Shown(store.index, e, skipObsolete) {
          FilteredNext(store.index, log, skipObsolete, index, i);
          index, key, wasRemoved := e.seqId, e.key, e.removed;
          return true;
        }
        i := i + 1;
      }
      FilteredSkip(store.index, log[index..], skipObsolete, |log| - index);
      return false;
    }

    /** The scanning loop; `visited` is what the callback sees. */
    method ScanLog() returns (visited: seq<Event>)
      requires Numbered(store.log) && index <= |store.log|
      modifies this`index, this`key, this`wasRemoved
      ensures visited == old(Remaining())
      ensures index <= |store.log| && Remaining() == []
    {
      visited := [];
      ghost var all := Remaining();
      while true
        invariant index <= |store.log| && visited + Remaining() == all
        decreases |store.log| - index
      {
        ghost var before := Remaining();
        var found := Next();
        if !found {
          break;
        }
        HeadMoves(visited, before);
        visited := visited + [store.log[index - 1].(key := key, removed := wasRemoved)];
      }
    }
  }

  // ---- what the events say

  datatype State = State(version: nat, removed: bool)

  /** Applying events one after the other; the last event of a key counts. */
  ghost function Replay(events: seq<Event>): map<ObjectKey, State> {
    if events == [] then map[]
    else
      var e := events[|events| - 1];
      Replay(events[..|events| - 1])[e.key := State(e.version, e.removed)]
  }

  /** What the rows say. */
  function States(index: map<ObjectKey, IndexRow>): map<ObjectKey, State> {
    map k | k in index :: State(index[k].version, index[k].file.None?)
  }

  lemma {:induction false} ReplayKeys(events: seq<Event>, k: ObjectKey)
    ensures k in Replay(events) <==> exists e :: e in events && e.key == k
  {
    if events != [] {
      var n := |events| - 1;
      ReplayKeys(events[..n], k);
      assert events == events[..n] + [events[n]];
      assert events[n] in events;
    }
  }

  lemma {:induction false} ReplayLast(events: seq<Event>, i: nat)
    requires i < |events| && forall j :: i < j < |events| ==> events[j].key != events[i].key
    ensures events[i].key in Replay(events)
    ensures Replay(events)[events[i].key] == State(events[i].version, events[i].removed)
  {
    var n := |events| - 1;
    if i < n {
      assert events[..n][i] == events[i];
      ReplayLast(events[..n], i);
    }
  }

  lemma {:induction false} FilteredAscends(index: map<ObjectKey, IndexRow>, log: seq<Event>, skipObsolete: bool)
    requires forall i, j :: 0 <= i < j < |log| ==> log[i].seqId < log[j].seqId
    ensures var v := Filtered(index, log, skipObsolete); forall i, j :: 0 <= i < j < |v| ==> v[i].seqId < v[j].seqId
  {
    if log != [] {
      var rest := Filtered(index, log[1..], skipObsolete);
      FilteredAscends(index, log[1..], skipObsolete);
      FilteredIn(index, log[1..], skipObsolete);
      forall i | 0 <= i < |rest| ensures log[0].seqId < rest[i].seqId {
        assert rest[i] in rest;
        assert rest[i] in log[1..];
      }
    }
  }

  /** Only the last event of a key that is still in the table carries the version of its row.  A
      store that persists deletions keeps it so; one that does not starts the versions of a
      vanished object over. */
  ghost predicate NoStaleVersion(index: map<ObjectKey, IndexRow>, log: seq<Event>) {
    forall i, j :: 0 <= i < j < |log| && log[i].key == log[j].key && log[i].key in index ==>
      log[i].version != index[log[i].key].version
  }

  /** A scan `v` visits exactly one event of each row, the last one of its key, with the removed
      flag of the row, in the order of the log; and no others. */
  ghost predicate VisitsEachRowOnce(index: map<ObjectKey, IndexRow>, log: seq<Event>, v: seq<Event>) {
    && (forall i, j :: 0 <= i < j < |v| ==> v[i].seqId < v[j].seqId && v[i].key != v[j].key)
    && (forall k :: k in index <==> exists e :: e in v && e.key == k)
    && (forall e :: e in v ==> e.version == index[e.key].version && e.removed == index[e.key].file.None?)
    && (forall e, f :: e in v && f in log && e.key == f.key ==> f.seqId <= e.seqId)
  }

  lemma LastIsShown(index: map<ObjectKey, IndexRow>, log: seq<Event>, k: ObjectKey) returns (i: nat)
    requires LogCurrent(index, log) && k in index
    ensures IsLastEvent(index[k], k, log, i) && log[i] in Filtered(index, log, true)
    ensures log[i] == Event(i + 1, k, index[k].version, index[k].file.None?)
  {
    i :| IsLastEvent(index[k], k, log, i);
    FilteredIn(index, log, true);
  }

  lemma Ascending(index: map<ObjectKey, IndexRow>, log: seq<Event>)
    requires LogCurrent(index, log)
    ensures var v := Filtered(index, log, true); forall i, j :: 0 <= i < j < |v| ==> v[i].seqId < v[j].seqId
  {
    FilteredAscends(index, log, true);
  }

  /** Without stale versions an event that is shown is the last of its key. */
  lemma ShownIsLast(index: map<ObjectKey, IndexRow>, log: seq<Event>, e: Event)
    requires LogCurrent(index, log) && NoStaleVersion(index, log) && e in Filtered(index, log, true)
    ensures e.key in index && IsLastEvent(index[e.key], e.key, log, e.seqId - 1) && log[e.seqId - 1] == e
  {
    FilteredIn(index, log, true);
    var j :| 0 <= j < |log| && log[j] == e;
    var i := LastIsShown(index, log, e.key);
    assert j == i;
  }

  lemma OnceWithoutStale(index: map<ObjectKey, IndexRow>, log: seq<Event>)
    requires LogCurrent(index, log) && NoStaleVersion(index, log)
    ensures VisitsEachRowOnce(index, log, Filtered(index, log, true))
  {
    var v := Filtered(index, log, true);
    Ascending(index, log);
    forall e | e in v
      ensures e.key in index && IsLastEvent(index[e.key], e.key, log, e.seqId - 1) && log[e.seqId - 1] == e
    {
      ShownIsLast(index, log, e);
    }
    forall k | k in index ensures exists e :: e in v && e.key == k {
      var i := LastIsShown(index, log, k);
    }
    forall i, j | 0 <= i < j < |v| ensures v[i].key != v[j].key {
      assert v[i] in v && v[j] in v;
    }
    forall e, f | e in v && f in log && e.key == f.key ensures f.seqId <= e.seqId {
      var j :| 0 <= j < |log| && log[j] == f;
    }
  }

  lemma StaleIsVisitedTwice(index: map<ObjectKey, IndexRow>, log: seq<Event>, i: nat, j: nat)
    requires LogCurrent(index, log) && i < j < |log| && log[i].key == log[j].key && log[i].key in index
    requires log[i].version == index[log[i].key].version
    ensures !VisitsEachRowOnce(index, log, Filtered(index, log, true))
  {
    FilteredIn(index, log, true);
    assert log[i] in log && log[j] in log && log[i].seqId < log[j].seqId;
    assert log[i] in Filtered(index, log, true);
  }

  /** A scan that skips obsolete events visits each row once exactly if no event before the last
      one of an existing key carries the version of its row. */
  lemma ScanVisitsEachRowOnceIff(index: map<ObjectKey, IndexRow>, log: seq<Event>)
    requires LogCurrent(index, log)
    ensures VisitsEachRowOnce(index, log, Filtered(index, log, true)) <==> NoStaleVersion(index, log)
  {
    if NoStaleVersion(index, log) {
      OnceWithoutStale(index, log);
    } else {
      var i, j :| 0 <= i < j < |log| && log[i].key == log[j].key && log[i].key in index
                  && log[i].version == index[log[i].key].version;
      StaleIsVisitedTwice(index, log, i, j);
    }
  }

  lemma ReplayOfLog(index: map<ObjectKey, IndexRow>, log: seq<Event>, k: ObjectKey)
    requires LogCurrent(index, log) && k in index
    ensures k in Replay(log) && Replay(log)[k] == States(index)[k]
  {
    var i := LastIsShown(index, log, k);
    ReplayLast(log, i);
  }

  /** The last event of a key is the last of the scan, too. */
  lemma ReplayOfRow(index: map<ObjectKey, IndexRow>, log: seq<Event>, k: ObjectKey)
    requires LogCurrent(index, log) && k in index
    ensures var r := Replay(Filtered(index, log, true)); k in r && r[k] == States(index)[k]
  {
    var v := Filtered(index, log, true);
    FilteredIn(index, log, true);
    Ascending(index, log);
    var i := LastIsShown(index, log, k);
    var p :| 0 <= p < |v| && v[p] == log[i];
    forall q | p < q < |v| ensures v[q].key != v[p].key {
      assert v[q] in v;
      var j :| 0 <= j < |log| && log[j] == v[q];
    }
    ReplayLast(v, p);
  }

  /** Replaying what the scan visits yields exactly the rows, even if some are visited more than
      once; replaying the whole log yields at least them. */
  lemma ReplayOfScan(index: map<ObjectKey, IndexRow>, log: seq<Event>)
    requires LogCurrent(index, log)
    ensures Replay(Filtered(index, log, true)) == States(index)
    ensures forall k :: k in index ==> k in Replay(log) && Replay(log)[k] == States(index)[k]
  {
    var v := Filtered(index, log, true);
    FilteredIn(index, log, true);
    forall k ensures k in Replay(v) ==> k in index {
      ReplayKeys(v, k);
    }
    forall k | k in index
      ensures k in Replay(v) && Replay(v)[k] == States(index)[k]
      ensures k in Replay(log) && Replay(log)[k] == States(index)[k]
    {
      ReplayOfRow(index, log, k);
      ReplayOfLog(index, log, k);
    }
  }

  /** Skipping obsolete events loses nothing exactly if no logged row has vanished: a deletion
      that is not kept as a row is hidden together with the row. */
  lemma ScanIsCompleteIff(index: map<ObjectKey, IndexRow>, log: seq<Event>)
    requires LogCurrent(index, log)
    ensures Replay(Filtered(index, log, true)) == Replay(log) <==> forall e :: e in log ==> e.key in index
  {
    ReplayOfScan(index, log);
    if forall e :: e in log ==> e.key in index {
      forall k ensures k in Replay(log) <==> k in index {
        ReplayKeys(log, k);
      }
    } else {
      var e :| e in log && e.key !in index;
      ReplayKeys(log, e.key);
    }
  }

  /** With deletions persisted the scan of a valid store is complete and visits each row once. */
  lemma StoreLogIsComplete(index: map<ObjectKey, IndexRow>, log: seq<Event>)
    requires LogCurrent(index, log) && LogAgrees(index, log)
    ensures Replay(Filtered(index, log, true)) == Replay(log) == States(index)
    ensures VisitsEachRowOnce(index, log, Filtered(index, log, true))
  {
    ReplayOfScan(index, log);
    ScanIsCompleteIff(index, log);
    ScanVisitsEachRowOnceIff(index, log);
  }

  // ---- stores that do not persist deletions

  /** Saved, deleted and acknowledged: the deletion is in the log and no scan that skips obsolete
      events ever shows it. */
  method HiddenDeletion(config: Config, key: ObjectKey, data: Json) returns (store: LocalStore)
    requires !config.persistDeleted
    ensures fresh(store) && store.config == config && store.Valid() && store.RowAt(key) == None
    ensures store.log == [Event(1, key, 1, false), Event(2, key, 2, true)]
    ensures key in Replay(store.log) && Replay(store.log)[key] == State(2, true)
    ensures key !in Replay(Filtered(store.index, store.log, true))
  {
    store := new LocalStore(config);
    store.Save(key, data);
    var removed := store.Remove(key);
    store.MarkUnchanged(key, 2, true);
    ReplayLast(store.log, 1);
    ReplayOfScan(store.index, store.log);
  }

  /** Saved once more: the versions start over, and the scan visits the row twice. */
  method VisitedTwice(config: Config, key: ObjectKey, data: Json) returns (store: LocalStore)
    requires !config.persistDeleted
    ensures fresh(store) && store.config == config && store.Valid()
    ensures store.RowAt(key) == Some(Row(Entry(1, Live(data)), true))
    ensures store.log == [Event(1, key, 1, false), Event(2, key, 2, true), Event(3, key, 1, false)]
    ensures !VisitsEachRowOnce(store.index, store.log, Filtered(store.index, store.log, true))
  {
    store := HiddenDeletion(config, key, data);
    store.Save(key, data);
    assert store.index[key].version == 1;
    StaleIsVisitedTwice(store.index, store.log, 0, 2);
  }
}
