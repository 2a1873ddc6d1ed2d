/** The download window of one connection: which of the waiting changes have been sent, when
    more are loaded, and when the client is told that there is nothing left. */
module Downloads {
  import opened ServerDb

  /** Counters are unsigned 32-bit integers. */
  const UINT_RANGE := 0x1_0000_0000

  function Unsigned(x: int): (r: nat)
    ensures 0 <= x < UINT_RANGE ==> r == x
    ensures r < UINT_RANGE && (x - r) % UINT_RANGE == 0
  {
    x % UINT_RANGE
  }

  datatype ServerMessage = ChangedInfo(count: nat, id: nat) | Changed(id: nat) | LastChanged

  /** What a connection remembers: the changes sent but not acknowledged, and how many more it
      has announced. */
  datatype Window = Window(active: seq<nat>, cached: nat)

  datatype Sending = Sending(window: Window, update: bool, messages: seq<ServerMessage>)

  // ---- what the download loop computes

  /** Sends one change; the first after an empty announcement carries a new count. */
  function SendOne(total: nat, s: Sending, id: nat): Sending {
    var w := s.window;
    var cached := if w.cached == 0 then Unsigned(total - |w.active|) else w.cached;
    var message := if s.update || w.cached == 0 then ChangedInfo(cached, id) else Changed(id);
    Sending(Window(w.active + [id], Unsigned(cached - 1)), false, s.messages + [message])
  }

  function SendAll(total: nat, s: Sending, ids: seq<nat>): Sending {
    if ids == [] then s else SendOne(total, SendAll(total, s, ids[..|ids| - 1]), ids[|ids| - 1])
  }

  /** The page to send next: as many as the limit leaves, once that reaches the threshold. */
  function NextPage(limit: nat, threshold: nat, pending: seq<nat>, active: seq<nat>): seq<nat> {
    var count := Unsigned(limit - |active|);
    if count >= threshold then Page(pending, count, |active|) else []
  }

  function Triggered(limit: nat, threshold: nat, pending: seq<nat>, w: Window, force: bool, skip: bool): Sending {
    var s := SendAll(|pending|, Sending(w, force, []), NextPage(limit, threshold, pending, w.active));
    if s.window.active == [] && !skip then Sending(Window([], 0), s.update, s.messages + [LastChanged]) else s
  }

  /** The first occurrence is removed. */
  function RemovedOne(ids: seq<nat>, id: nat): seq<nat> {
    if ids == [] then [] else if ids[0] == id then ids[1..] else [ids[0]] + RemovedOne(ids[1..], id)
  }

  lemma {:induction false} SendAllFrom(total: nat, s: Sending, ids: seq<nat>)
    ensures
      var r := SendAll(total, s.(messages := []), ids);
      SendAll(total, s, ids) == r.(messages := s.messages + r.messages)
  {
    if ids == [] {
      assert s.messages + [] == s.messages;
    } else {
      SendAllFrom(total, s, ids[..|ids| - 1]);
      var r := SendAll(total, s.(messages := []), ids);
      var m := r.messages[|r.messages| - 1];
      assert s.messages + r.messages == s.messages + r.messages[..|r.messages| - 1] + [m];
    }
  }

  // ---- one connection

  class Client {
    const db: Database
    const deviceId: Device
    const downLimit: nat
    const downThreshold: nat
    var activeDownloads: seq<nat>
    var cachedChanges: nat
    var sent: seq<ServerMessage>

    constructor (db: Database, deviceId: Device, downLimit: nat, downThreshold: nat)
      ensures this.db == db && this.deviceId == deviceId
      ensures this.downLimit == downLimit && this.downThreshold == downThreshold
      ensures Abs() == Window([], 0) && sent == []
    {
      this.db, this.deviceId, this.downLimit, this.downThreshold := db, deviceId, downLimit, downThreshold;
      activeDownloads, cachedChanges, sent := [], 0, [];
    }

    function Abs(): Window
      reads this
    {
      Window(activeDownloads, cachedChanges)
    }

    ghost function LinkOf(): Link
      reads this, db
    {
      Link(db.Queue(deviceId), Abs(), sent)
    }

    /** The body of the download loop. */
    method SendChange(id: nat, update: bool) returns (updateChange: bool)
      requires db.Valid()
      modifies this`activeDownloads, this`cachedChanges, this`sent
      ensures var s := SendOne(|db.Queue(deviceId)|, Sending(old(Abs()), update, old(sent)), id);
        Abs() == s.window && updateChange == s.update && sent == s.messages
      ensures
        var left := if old(cachedChanges) == 0 then Unsigned(|db.Queue(deviceId)| - old(|activeDownloads|)) else old(cachedChanges);
        && sent == old(sent) + [if update || old(cachedChanges) == 0 then ChangedInfo(left, id) else Changed(id)]
        && activeDownloads == old(activeDownloads) + [id] && cachedChanges == Unsigned(left - 1) && !updateChange
    {
      updateChange := update;
      if cachedChanges == 0 {
        updateChange := true;
        var count := db.ChangeCount(deviceId);
        cachedChanges := Unsigned(count - |activeDownloads|);
      }
      if updateChange {
        sent := sent + [ChangedInfo(cachedChanges, id)];
        updateChange := false;
      } else {
        sent := sent + [Changed(id)];
      }
      activeDownloads := activeDownloads + [id];
      cachedChanges := Unsigned(cachedChanges - 1);
    }

    /** The download loop. */
    method SendPage(ids: seq<nat>, update: bool)
      requires db.Valid()
      modifies this`activeDownloads, this`cachedChanges, this`sent
      ensures var s := SendAll(|db.Queue(deviceId)|, Sending(old(Abs()), update, []), ids);
        Abs() == s.window && sent == old(sent) + s.messages
    {
      ghost var start := Sending(Abs(), update, sent);
      ghost var total := |db.Queue(deviceId)|;
      var updateChange := update;
      for i := 0 to |ids|
        invariant Sending(Abs(), updateChange, sent) == SendAll(total, start, ids[..i])
      {
        updateChange := SendChange(ids[i], updateChange);
        assert ids[..i + 1][..i] == ids[..i];
      }
      assert ids[..|ids|] == ids;
      SendAllFrom(total, start, ids);
    }

    /** Loads a page and sends it. */
    method SendNext(count: nat, update: bool)
      requires db.Valid()
      modifies this`activeDownloads, this`cachedChanges, this`sent
      ensures var q := db.Queue(deviceId);
        var s := SendAll(|q|, Sending(old(Abs()), update, []), Page(q, count, old(|activeDownloads|)));
        Abs() == s.window && sent == old(sent) + s.messages
    {
      var changes := db.LoadNextChanges(deviceId, count, |activeDownloads|);
      SendPage(changes, update);
    }

    method TriggerDownload(forceUpdate: bool, skipNoChanges: bool)
      requires db.Valid()
      modifies this`activeDownloads, this`cachedChanges, this`sent
      ensures var s := Triggered(downLimit, downThreshold, db.Queue(deviceId), old(Abs()), forceUpdate, skipNoChanges);
        Abs() == s.window && sent == old(sent) + s.messages
      ensures Paged(downLimit, downThreshold, db.Queue(deviceId), old(Abs()), forceUpdate, skipNoChanges, Abs(), old(sent), sent)
    {
      var cnt := Unsigned(downLimit - |activeDownloads|);
      if cnt >= downThreshold {
        SendNext(cnt, forceUpdate);
      }
      if activeDownloads == [] && !skipNoChanges {
        cachedChanges := 0;
        sent := sent + [LastChanged];
      }
      TriggeredIsPaged(downLimit, downThreshold, db.Queue(deviceId), old(Abs()), forceUpdate, skipNoChanges,
                       Abs(), old(sent), sent);
    }

    /** The part of a login that concerns downloads. */
    method OnLogin()
      requires db.Valid() && activeDownloads == []
      modifies this`activeDownloads, this`cachedChanges, this`sent
      ensures var pending := db.Queue(deviceId);
        var s := Triggered(downLimit, downThreshold, pending, Window([], |pending|), true, |pending| == 0);
        Abs() == s.window && sent == old(sent) + s.messages
      ensures
        var q := db.Queue(deviceId);
        |q| < UINT_RANGE && 1 <= downLimit < UINT_RANGE && downThreshold <= downLimit ==>
          if q == [] then sent == old(sent) else CountNext(q, old(sent), sent)
      ensures old(sent) == [] ==> LinkOf() == LoggedIn(Limits(downLimit, downThreshold), db.Queue(deviceId))
    {
      cachedChanges := db.ChangeCount(deviceId);
      TriggerDownload(true, cachedChanges == 0);
    }

    /** Another device has uploaded a change, or this one asks for a page. */
    method NotifyChanged()
      requires db.Valid()
      modifies this`activeDownloads, this`cachedChanges, this`sent
      ensures LinkOf() == Next(Limits(downLimit, downThreshold), old(LinkOf()), Notify)
    {
      TriggerDownload(false, false);
    }

    method OnChangedAck(id: nat)
      requires db.Valid()
      modifies this`activeDownloads, this`cachedChanges, this`sent, db
      ensures db.Valid() && db.Abs() == Completed(old(db.Abs()), deviceId, id)
      ensures db.Queue(deviceId) == Removed(old(db.Queue(deviceId)), id)
      ensures var w := Window(RemovedOne(old(activeDownloads), id), old(cachedChanges));
        var s := Triggered(downLimit, downThreshold, db.Queue(deviceId), w, false, false);
        Abs() == s.window && sent == old(sent) + s.messages
      ensures LinkOf() == Next(Limits(downLimit, downThreshold), old(LinkOf()), Ack(id))
    {
      ghost var t := db.Abs();
      db.CompleteChange(deviceId, id);
      CompletedQueue(t, deviceId, id, deviceId);
      var i := 0;
      while i < |activeDownloads| && activeDownloads[i] != id
        invariant i <= |activeDownloads| && id !in activeDownloads[..i]
      {
        i := i + 1;
      }
      RemovedOneAt(activeDownloads, id, i);
      if i < |activeDownloads| {
        activeDownloads := activeDownloads[..i] + activeDownloads[i + 1..];
      }
      TriggerDownload(false, false);
    }
  }

  lemma {:induction false} RemovedOneAt(ids: seq<nat>, id: nat, i: nat)
    requires i <= |ids| && id !in ids[..i] && (i < |ids| ==> ids[i] == id)
    ensures RemovedOne(ids, id) == if i < |ids| then ids[..i] + ids[i + 1..] else ids
  {
    if i > 0 {
      var rest := ids[1..];
      assert ids[0] == ids[..i][0];
      assert rest[..i - 1] == ids[..i][1..];
      RemovedOneAt(rest, id, i - 1);
      if i < |ids| {
        assert [ids[0]] + (rest[..i - 1] + rest[i..]) == ids[..i] + ids[i + 1..];
      } else {
        assert [ids[0]] + rest == ids;
      }
    }
  }

  // ---- the window in every state

  lemma {:induction false} SendAllActive(total: nat, s: Sending, ids: seq<nat>)
    ensures SendAll(total, s, ids).window.active == s.window.active + ids
    ensures LastChanged in SendAll(total, s, ids).messages <==> LastChanged in s.messages
  {
    if ids == [] {
      assert s.window.active + ids == s.window.active;
    } else {
      SendAllActive(total, s, ids[..|ids| - 1]);
      assert ids[..|ids| - 1] + [ids[|ids| - 1]] == ids;
    }
  }

  /** The limit is never exceeded, so that the subtraction from it never wraps. */
  lemma TriggeredWithinLimit(limit: nat, threshold: nat, pending: seq<nat>, w: Window, force: bool, skip: bool)
    requires |w.active| <= limit < UINT_RANGE
    ensures |Triggered(limit, threshold, pending, w, force, skip).window.active| <= limit
  {
    SendAllActive(|pending|, Sending(w, force, []), NextPage(limit, threshold, pending, w.active));
  }

  /** The client is told that nothing is left. */
  ghost predicate Tells(limit: nat, threshold: nat, pending: seq<nat>, w: Window, force: bool, skip: bool) {
    LastChanged in Triggered(limit, threshold, pending, w, force, skip).messages
  }

  lemma TellsIff(limit: nat, threshold: nat, pending: seq<nat>, w: Window, force: bool, skip: bool)
    requires |w.active| <= limit < UINT_RANGE
    ensures Tells(limit, threshold, pending, w, force, skip) <==>
            w.active == [] && !skip && (pending == [] || limit == 0 || limit < threshold)
  {
    var page := NextPage(limit, threshold, pending, w.active);
    SendAllActive(|pending|, Sending(w, force, []), page);
    if w.active == [] && pending != [] && limit > 0 && limit >= threshold {
      assert page[0] == pending[0];
    }
  }

  /** Whatever the window holds: `LastChanged` is sent only when nothing is pending, exactly if
      the limit is positive and not below the threshold. */
  lemma LastChangedIsHonestIff(limit: nat, threshold: nat)
    requires limit < UINT_RANGE
    ensures (forall pending, w: Window, force, skip ::
               |w.active| <= limit && Tells(limit, threshold, pending, w, force, skip) ==> pending == [])
            <==> limit >= 1 && limit >= threshold
  {
    if limit >= 1 && limit >= threshold {
      forall pending, w: Window, force, skip | |w.active| <= limit && Tells(limit, threshold, pending, w, force, skip)
        ensures pending == []
      {
        TellsIff(limit, threshold, pending, w, force, skip);
      }
    } else {
      TellsIff(limit, threshold, [1], Window([], 0), false, false);
      assert Tells(limit, threshold, [1], Window([], 0), false, false);
    }
  }

  // ---- the window as a prefix of the queue

  /** The active downloads are the first of the queue. */
  ghost predicate InStep(pending: seq<nat>, active: seq<nat>) {
    active <= pending
  }

  /** The messages announce the queue from `start` on, in order.  A message carries a count exactly
      if it is the first of a forced page or what was `announced` before has been sent, and the count
      is the exact number of changes that are left. */
  ghost predicate Announces(pending: seq<nat>, start: nat, announced: nat, force: bool, messages: seq<ServerMessage>) {
    && start + |messages| <= |pending|
    && forall j :: 0 <= j < |messages| ==>
         messages[j] == if j == announced || (force && j == 0)
                        then ChangedInfo(|pending| - (start + j), pending[start + j])
                        else Changed(pending[start + j])
  }

  /** The count after `n` changes were sent of `left`, in plain integers: it falls by one for
      each, and starts over with what is left when it has come to nothing. */
  function CountLeft(cached: nat, left: nat, n: nat): (r: nat)
    requires n <= left
    ensures r <= if cached >= left then cached else left
    ensures n > 0 ==> r < if cached >= left then cached else left
  {
    if n <= cached then cached - n else left - n
  }

  /** The first `n` of what is left of the queue. */
  function NextIds(pending: seq<nat>, k: nat, n: nat): seq<nat>
    requires k + n <= |pending|
  {
    pending[k..][..n]
  }

  lemma OneMoreId(pending: seq<nat>, k: nat, n: nat)
    requires 0 < n && k + n <= |pending|
    ensures var ids := NextIds(pending, k, n); ids[..n - 1] == NextIds(pending, k, n - 1) && ids[n - 1] == pending[k + n - 1]
    ensures pending[..k + n] == pending[..k + n - 1] + [pending[k + n - 1]]
  {}

  lemma {:induction false} SendAllCounts(pending: seq<nat>, w: Window, force: bool, n: nat)
    requires InStep(pending, w.active) && |w.active| + n <= |pending| < UINT_RANGE && w.cached < UINT_RANGE
    ensures
      var s := SendAll(|pending|, Sending(w, force, []), NextIds(pending, |w.active|, n));
      && s.window.active == pending[..|w.active| + n]
      && s.window.cached == CountLeft(w.cached, |pending| - |w.active|, n)
  {
    if n == 0 {
      assert pending[..|w.active|] == w.active;
    } else {
      OneMoreId(pending, |w.active|, n);
      SendAllCounts(pending, w, force, n - 1);
    }
  }

  lemma {:induction false} SendAllAnnounces(pending: seq<nat>, w: Window, force: bool, n: nat)
    requires InStep(pending, w.active) && |w.active| + n <= |pending| < UINT_RANGE && w.cached < UINT_RANGE
    requires force ==> w.cached == |pending| - |w.active|
    ensures
      var s := SendAll(|pending|, Sending(w, force, []), NextIds(pending, |w.active|, n));
      |s.messages| == n && Announces(pending, |w.active|, w.cached, force, s.messages) && (s.update <==> force && n == 0)
  {
    if n > 0 {
      OneMoreId(pending, |w.active|, n);
      SendAllCounts(pending, w, force, n - 1);
      SendAllAnnounces(pending, w, force, n - 1);
      var before := SendAll(|pending|, Sending(w, force, []), NextIds(pending, |w.active|, n - 1));
      OneAnnounced(pending, |w.active|, w.cached, force, before, n - 1);
    }
  }

  /** The next change is announced by its id, with the exact count if the count is told. */
  lemma OneAnnounced(pending: seq<nat>, k: nat, cached: nat, force: bool, s: Sending, n: nat)
    requires k + n < |pending| < UINT_RANGE && cached < UINT_RANGE && s.window.active == pending[..k + n]
    requires s.window.cached == CountLeft(cached, |pending| - k, n)
    requires |s.messages| == n && Announces(pending, k, cached, force, s.messages)
    requires s.update <==> force && n == 0
    requires force ==> cached == |pending| - k
    ensures
      var r := SendOne(|pending|, s, pending[k + n]);
      |r.messages| == n + 1 && Announces(pending, k, cached, force, r.messages) && !r.update
  {}

  /** How many changes are sent. */
  function Sendable(limit: nat, threshold: nat, pending: nat, active: nat): nat
    requires active <= limit && active <= pending
  {
    if limit - active < threshold then 0 else if pending < limit then pending - active else limit - active
  }

  /** A step of the window: paging by offset neither skips nor repeats a change, the counter is
      what plain integers make it, so that no subtraction wraps, and the announced counts are
      exact. */
  lemma TriggeredStaysInStep(limit: nat, threshold: nat, pending: seq<nat>, w: Window, force: bool, skip: bool)
    requires InStep(pending, w.active) && |w.active| <= limit < UINT_RANGE
    requires |pending| < UINT_RANGE && w.cached < UINT_RANGE
    requires force ==> w.cached == |pending| - |w.active|
    ensures
      var s := Triggered(limit, threshold, pending, w, force, skip);
      var n := Sendable(limit, threshold, |pending|, |w.active|);
      && s.window.active == pending[..|w.active| + n]
      && s.window.cached == (if s.window.active == [] && !skip then 0
                             else CountLeft(w.cached, |pending| - |w.active|, n))
      && |s.messages| >= n && Announces(pending, |w.active|, w.cached, force, s.messages[..n])
      && s.messages[n..] == if s.window.active == [] && !skip then [LastChanged] else []
  {
    var n := Sendable(limit, threshold, |pending|, |w.active|);
    assert NextPage(limit, threshold, pending, w.active) == NextIds(pending, |w.active|, n);
    SendAllCounts(pending, w, force, n);
    SendAllAnnounces(pending, w, force, n);
  }

  /** A trigger, by what is sent and remembered: the next changes of the queue up to the limit if
      there is room for the threshold, or the message that nothing is left. */
  ghost predicate PageSent(limit: nat, threshold: nat, pending: seq<nat>, w: Window, force: bool, skip: bool,
      w': Window, messages: seq<ServerMessage>)
  {
    var k, top := |w.active|, if |pending| < limit then |pending| else limit;
    var n := if limit - k < threshold then 0 else top - k;
    && k <= top && w'.active == pending[..k + n]
    && if k + n == 0 && !skip then messages == [LastChanged] && w'.cached == 0
       else
         && |messages| == n && Announces(pending, k, w.cached, force, messages)
         && w'.cached == if n <= w.cached then w.cached - n else |pending| - k - n
  }

  lemma TriggeredIsPage(limit: nat, threshold: nat, pending: seq<nat>, w: Window, force: bool, skip: bool)
    requires InStep(pending, w.active) && |w.active| <= limit < UINT_RANGE
    requires |pending| < UINT_RANGE && w.cached < UINT_RANGE
    requires force ==> w.cached == |pending| - |w.active|
    ensures var s := Triggered(limit, threshold, pending, w, force, skip);
      PageSent(limit, threshold, pending, w, force, skip, s.window, s.messages)
  {
    TriggeredStaysInStep(limit, threshold, pending, w, force, skip);
    var s := Triggered(limit, threshold, pending, w, force, skip);
    var n := Sendable(limit, threshold, |pending|, |w.active|);
    assert s.messages == s.messages[..n] + s.messages[n..];
  }

  /** The next message carries the count of the whole queue. */
  ghost predicate CountNext(pending: seq<nat>, sent: seq<ServerMessage>, sent': seq<ServerMessage>) {
    && pending != [] && |sent| < |sent'| && sent <= sent'
    && sent'[|sent|] == ChangedInfo(|pending|, pending[0])
  }

  /** Where the window is a prefix of the queue and no counter can wrap, a trigger sends a page; and
      the first page after the message that nothing is left starts with a count. */
  ghost predicate Paged(limit: nat, threshold: nat, pending: seq<nat>, w: Window, force: bool, skip: bool,
      w': Window, sent: seq<ServerMessage>, sent': seq<ServerMessage>)
  {
    && InStep(pending, w.active) && |w.active| <= limit < UINT_RANGE && |pending| < UINT_RANGE && w.cached < UINT_RANGE
    && (force ==> w.cached == |pending| - |w.active|) ==>
      && sent <= sent' && PageSent(limit, threshold, pending, w, force, skip, w', sent'[|sent|..])
      && (w.active == [] && (w.cached == 0 || force) && pending != [] && 1 <= limit && threshold <= limit ==>
            CountNext(pending, sent, sent'))
  }

  lemma TriggeredIsPaged(limit: nat, threshold: nat, pending: seq<nat>, w: Window, force: bool, skip: bool,
      w': Window, sent: seq<ServerMessage>, sent': seq<ServerMessage>)
    requires var s := Triggered(limit, threshold, pending, w, force, skip);
      w' == s.window && sent' == sent + s.messages
    ensures Paged(limit, threshold, pending, w, force, skip, w', sent, sent')
  {
    if && InStep(pending, w.active) && |w.active| <= limit < UINT_RANGE && |pending| < UINT_RANGE && w.cached < UINT_RANGE
       && (force ==> w.cached == |pending| - |w.active|) {
      TriggeredIsPage(limit, threshold, pending, w, force, skip);
      var s := Triggered(limit, threshold, pending, w, force, skip);
      assert (sent + s.messages)[|sent|..] == s.messages;
    }
  }

  // ---- acknowledgements

  lemma {:induction false} RemovedAt(ids: seq<nat>, i: nat)
    requires Ascends(ids) && i < |ids|
    ensures Removed(ids, ids[i]) == ids[..i] + ids[i + 1..]
  {
    var n := |ids| - 1;
    if i == n {
      RemovedNothing(ids[..n], ids[n]);
      assert ids[i + 1..] == [];
    } else {
      assert ids[..n][i] == ids[i];
      RemovedAt(ids[..n], i);
      assert ids[i + 1..] == ids[..n][i + 1..] + [ids[n]];
    }
  }

  lemma {:induction false} RemovedNothing(ids: seq<nat>, id: nat)
    requires id !in ids
    ensures Removed(ids, id) == ids
  {
    if ids != [] { RemovedNothing(ids[..|ids| - 1], id); }
  }

  lemma AckOfPending(pending: seq<nat>, active: seq<nat>, i: nat)
    requires InStep(pending, active) && Ascends(pending) && i < |pending|
    ensures
      var id := pending[i];
      && Removed(pending, id) == pending[..i] + pending[i + 1..]
      && RemovedOne(active, id) == (if i < |active| then active[..i] + active[i + 1..] else active)
      && (id in active <==> i < |active|)
  {
    var id := pending[i];
    RemovedAt(pending, i);
    if i < |active| {
      assert active[i] == id && id !in active[..i];
      RemovedOneAt(active, id, i);
    } else {
      assert id !in active;
      RemovedOneAt(active, id, |active|);
    }
  }

  lemma PrefixWithout(pending: seq<nat>, active: seq<nat>, i: nat)
    requires active <= pending && Ascends(pending) && i < |pending|
    ensures Ascends(pending[..i] + pending[i + 1..])
    ensures (if i < |active| then active[..i] + active[i + 1..] else active) <= pending[..i] + pending[i + 1..]
  {}

  /** An acknowledgement of any change, sent or not, keeps the window a prefix of the queue. */
  lemma AckKeepsPrefix(pending: seq<nat>, active: seq<nat>, id: nat)
    requires InStep(pending, active) && Ascends(pending)
    ensures InStep(Removed(pending, id), RemovedOne(active, id)) && Ascends(Removed(pending, id))
    ensures |Removed(pending, id)| == |pending| - if id in pending then 1 else 0
    ensures |RemovedOne(active, id)| == |active| - if id in active then 1 else 0
  {
    if id in pending {
      var i :| 0 <= i < |pending| && pending[i] == id;
      AckOfPending(pending, active, i);
      PrefixWithout(pending, active, i);
    } else {
      RemovedNothing(pending, id);
      assert id !in active;
      RemovedOneAt(active, id, |active|);
    }
  }

  // ---- runs of one connection

  /** The queue of a device, its connection, and what was sent over it. */
  datatype Link = Link(pending: seq<nat>, window: Window, sent: seq<ServerMessage>)

  /** `Replace` is an upload that supersedes an earlier one which may be on its way already. */
  datatype Event = Arrive(id: nat) | Replace(stale: nat, id: nat) | Ack(id: nat) | Notify

  datatype Limits = Limits(limit: nat, threshold: nat)

  ghost predicate IsNew(l: Link, id: nat) {
    (forall x :: x in l.pending ==> x < id) && (forall x :: x in l.window.active ==> x < id)
  }

  ghost function TriggeredLink(c: Limits, l: Link, force: bool, skip: bool): Link {
    var s := Triggered(c.limit, c.threshold, l.pending, l.window, force, skip);
    Link(l.pending, s.window, l.sent + s.messages)
  }

  ghost function LoggedIn(c: Limits, pending: seq<nat>): Link {
    TriggeredLink(c, Link(pending, Window([], |pending|), []), true, |pending| == 0)
  }

  function Acked(l: Link, id: nat): Link {
    Link(Removed(l.pending, id), Window(RemovedOne(l.window.active, id), l.window.cached), l.sent)
  }

  ghost function Next(c: Limits, l: Link, e: Event): Link {
    match e
    case Arrive(id) => if IsNew(l, id) then l.(pending := l.pending + [id]) else l
    case Replace(stale, id) => if IsNew(l, id) then l.(pending := Removed(l.pending, stale) + [id]) else l
    case Ack(id) => TriggeredLink(c, Acked(l, id), false, false)
    case Notify => TriggeredLink(c, l, false, false)
  }

  ghost function After(c: Limits, l: Link, run: seq<Event>): Link
    decreases |run|
  {
    if run == [] then l else After(c, Next(c, l, run[0]), run[1..])
  }

  lemma {:induction false} AfterSnoc(c: Limits, l: Link, run: seq<Event>, x: Event)
    ensures After(c, l, run + [x]) == Next(c, After(c, l, run), x)
    decreases |run|
  {
    if run == [] {
      assert run + [x] == [x] && [x][1..] == [];
    } else {
      assert (run + [x])[1..] == run[1..] + [x];
      AfterSnoc(c, Next(c, l, run[0]), run[1..], x);
    }
  }

  ghost predicate LinkOk(c: Limits, l: Link, room: nat) {
    && Ascends(l.pending) && InStep(l.pending, l.window.active) && |l.window.active| <= c.limit
    && |l.pending| + room < UINT_RANGE && l.window.cached < UINT_RANGE
  }

  lemma TriggeredKeepsLink(c: Limits, l: Link, force: bool, skip: bool, room: nat)
    requires LinkOk(c, l, room) && c.limit < UINT_RANGE
    requires force ==> l.window.cached == |l.pending| - |l.window.active|
    ensures LinkOk(c, TriggeredLink(c, l, force, skip), room)
  {
    TriggeredStaysInStep(c.limit, c.threshold, l.pending, l.window, force, skip);
    TriggeredWithinLimit(c.limit, c.threshold, l.pending, l.window, force, skip);
  }

  lemma StepKeepsLink(c: Limits, l: Link, e: Event, room: nat)
    requires LinkOk(c, l, room + 1) && c.limit < UINT_RANGE && !e.Replace?
    ensures LinkOk(c, Next(c, l, e), room)
  {
    match e
    case Ack(id) =>
      AckKeepsPrefix(l.pending, l.window.active, id);
      TriggeredKeepsLink(c, Acked(l, id), false, false, room);
    case Notify => TriggeredKeepsLink(c, l, false, false, room);
    case Arrive(id) =>
      if IsNew(l, id) {
        forall i | 0 <= i < |l.pending| ensures l.pending[i] < id {
          assert l.pending[i] in l.pending;
        }
      }
  }

  lemma {:induction false} RunKeepsLink(c: Limits, l: Link, run: seq<Event>)
    requires LinkOk(c, l, |run|) && c.limit < UINT_RANGE && forall e :: e in run ==> !e.Replace?
    ensures LinkOk(c, After(c, l, run), 0)
    decreases |run|
  {
    if run != [] {
      StepKeepsLink(c, l, run[0], |run| - 1);
      RunKeepsLink(c, Next(c, l, run[0]), run[1..]);
    }
  }

  /** Whatever the connection does next, the page continues where the last one ended and the
      counter does not wrap. */
  ghost predicate Continues(c: Limits, l: Link) {
    && InStep(l.pending, l.window.active) && |l.window.active| <= c.limit
    && var s := Triggered(c.limit, c.threshold, l.pending, l.window, false, false);
       var n := Sendable(c.limit, c.threshold, |l.pending|, |l.window.active|);
       && s.window.active == l.pending[..|l.window.active| + n]
       && s.window.cached == (if s.window.active == [] then 0
                              else CountLeft(l.window.cached, |l.pending| - |l.window.active|, n))
  }

  lemma LinkContinues(c: Limits, l: Link)
    requires InStep(l.pending, l.window.active) && |l.window.active| <= c.limit < UINT_RANGE
    requires |l.pending| < UINT_RANGE && l.window.cached < UINT_RANGE
    ensures Continues(c, l)
  {
    TriggeredStaysInStep(c.limit, c.threshold, l.pending, l.window, false, false);
  }

  /** In every run in which changes only arrive under new ids, the active downloads are the
      first of the queue and never more than the limit, and the counter never wraps, whether a
      notification or an acknowledgement comes next. */
  lemma WindowIsPrefix(c: Limits, pending: seq<nat>, run: seq<Event>)
    requires c.limit < UINT_RANGE && Ascends(pending) && |pending| + |run| < UINT_RANGE
    requires forall e :: e in run ==> !e.Replace?
    ensures
      var l := After(c, LoggedIn(c, pending), run);
      Continues(c, l) && forall id :: Continues(c, Acked(l, id))
  {
    TriggeredKeepsLink(c, Link(pending, Window([], |pending|), []), true, |pending| == 0, |run|);
    RunKeepsLink(c, LoggedIn(c, pending), run);
    var l := After(c, LoggedIn(c, pending), run);
    LinkContinues(c, l);
    forall id ensures Continues(c, Acked(l, id)) {
      AckKeepsPrefix(l.pending, l.window.active, id);
      LinkContinues(c, Acked(l, id));
    }
  }

  lemma {:induction false} RunWithinLimit(c: Limits, l: Link, run: seq<Event>)
    requires |l.window.active| <= c.limit < UINT_RANGE
    ensures |After(c, l, run).window.active| <= c.limit
    decreases |run|
  {
    if run != [] {
      var e := run[0];
      if e.Ack? {
        RemovedOneShrinks(l.window.active, e.id);
        TriggeredWithinLimit(c.limit, c.threshold, Removed(l.pending, e.id),
                             Window(RemovedOne(l.window.active, e.id), l.window.cached), false, false);
      } else {
        TriggeredWithinLimit(c.limit, c.threshold, l.pending, l.window, false, false);
      }
      RunWithinLimit(c, Next(c, l, e), run[1..]);
    }
  }

  lemma {:induction false} RemovedOneShrinks(ids: seq<nat>, id: nat)
    ensures |RemovedOne(ids, id)| <= |ids|
  {
    if ids != [] { RemovedOneShrinks(ids[1..], id); }
  }

  /** In every run whatsoever the limit holds, and a client that is told that nothing is left
      has nothing left. */
  lemma ConnectionIsBounded(c: Limits, pending: seq<nat>, run: seq<Event>, force: bool, skip: bool)
    requires 1 <= c.limit < UINT_RANGE && c.threshold <= c.limit
    ensures
      var l := After(c, LoggedIn(c, pending), run);
      && |l.window.active| <= c.limit
      && (Tells(c.limit, c.threshold, l.pending, l.window, force, skip) ==> l.pending == [])
  {
    TriggeredWithinLimit(c.limit, c.threshold, pending, Window([], |pending|), true, |pending| == 0);
    RunWithinLimit(c, LoggedIn(c, pending), run);
    var l := After(c, LoggedIn(c, pending), run);
    TellsIff(c.limit, c.threshold, l.pending, l.window, force, skip);
  }

  // ---- draining the queue

  function Ids(messages: seq<ServerMessage>): seq<nat> {
    if messages == [] then []
    else
      var earlier, m := Ids(messages[..|messages| - 1]), messages[|messages| - 1];
      if m.LastChanged? then earlier else earlier + [m.id]
  }

  /** The client acknowledges the oldest active download, `n` times. */
  ghost function AckHeads(c: Limits, l: Link, n: nat): Link
    decreases n
  {
    if n == 0 || l.window.active == [] then l else AckHeads(c, Next(c, l, Ack(l.window.active[0])), n - 1)
  }

  lemma {:induction false} IdsCat(a: seq<ServerMessage>, b: seq<ServerMessage>)
    ensures Ids(a + b) == Ids(a) + Ids(b)
  {
    if b == [] {
      assert a + b == a && Ids(a) + Ids(b) == Ids(a);
    } else {
      var n := |b| - 1;
      IdsCat(a, b[..n]);
      assert (a + b)[..|a + b| - 1] == a + b[..n];
      if !b[n].LastChanged? {
        assert Ids(a) + (Ids(b[..n]) + [b[n].id]) == Ids(a) + Ids(b[..n]) + [b[n].id];
      }
    }
  }

  lemma {:induction false} AnnouncedIds(pending: seq<nat>, start: nat, announced: nat, force: bool, messages: seq<ServerMessage>)
    requires Announces(pending, start, announced, force, messages)
    ensures Ids(messages) == pending[start..start + |messages|]
  {
    if messages != [] {
      var n := |messages| - 1;
      AnnouncesInit(pending, start, announced, force, messages);
      AnnouncedIds(pending, start, announced, force, messages[..n]);
      assert pending[start..start + n] + [pending[start + n]] == pending[start..start + |messages|];
    }
  }

  lemma AnnouncesInit(pending: seq<nat>, start: nat, announced: nat, force: bool, messages: seq<ServerMessage>)
    requires Announces(pending, start, announced, force, messages) && messages != []
    ensures var n := |messages| - 1;
      && Announces(pending, start, announced, force, messages[..n])
      && !messages[n].LastChanged? && messages[n].id == pending[start + n]
  {}

  /** A trigger sends the next part of the queue. */
  lemma TriggeredIds(limit: nat, threshold: nat, pending: seq<nat>, w: Window, force: bool, skip: bool)
    requires InStep(pending, w.active) && |w.active| <= limit < UINT_RANGE
    requires |pending| < UINT_RANGE && w.cached < UINT_RANGE
    requires force ==> w.cached == |pending| - |w.active|
    ensures
      var s := Triggered(limit, threshold, pending, w, force, skip);
      && |w.active| <= |s.window.active| <= |pending|
      && Ids(s.messages) == pending[|w.active|..|s.window.active|]
  {
    var s := Triggered(limit, threshold, pending, w, force, skip);
    var n := Sendable(limit, threshold, |pending|, |w.active|);
    TriggeredStaysInStep(limit, threshold, pending, w, force, skip);
    IdsCat(s.messages[..n], s.messages[n..]);
    assert s.messages == s.messages[..n] + s.messages[n..];
    AnnouncedIds(pending, |w.active|, w.cached, force, s.messages[..n]);
    assert Ids([LastChanged]) == [];
    assert Ids(s.messages[..n]) + [] == Ids(s.messages[..n]);
  }

  /** It leaves the window empty only if the queue is, and then says so. */
  lemma TriggeredEmpty(limit: nat, threshold: nat, pending: seq<nat>, w: Window)
    requires InStep(pending, w.active) && |w.active| <= limit < UINT_RANGE
    requires |pending| < UINT_RANGE && w.cached < UINT_RANGE && 1 <= limit && threshold <= limit
    ensures
      var s := Triggered(limit, threshold, pending, w, false, false);
      && (s.window.active == [] <==> pending == [])
      && (pending == [] ==> s.messages == [LastChanged])
  {
    TriggeredStaysInStep(limit, threshold, pending, w, false, false);
  }

  /** `l1` is what is left after the oldest download of `l` was acknowledged. */
  ghost predicate HeadGone(l: Link, l1: Link)
    requires l.window.active != []
  {
    && l.pending != [] && l1.pending == l.pending[1..]
    && |l.window.active| - 1 <= |l1.window.active| <= |l1.pending|
    && Ids(l1.sent) == Ids(l.sent) + l1.pending[|l.window.active| - 1..|l1.window.active|]
    && (l1.window.active == [] <==> l1.pending == [])
    && (l1.pending == [] ==> l1.sent != [] && l1.sent[|l1.sent| - 1] == LastChanged)
  }

  lemma RestTriggered(c: Limits, l: Link, rest: Link)
    requires LinkOk(c, rest, 0) && 1 <= c.limit < UINT_RANGE && c.threshold <= c.limit
    requires l.window.active != [] && l.pending != [] && rest.pending == l.pending[1..]
    requires |rest.window.active| == |l.window.active| - 1 && rest.sent == l.sent
    ensures LinkOk(c, TriggeredLink(c, rest, false, false), 0) && HeadGone(l, TriggeredLink(c, rest, false, false))
  {
    TriggeredKeepsLink(c, rest, false, false, 0);
    TriggeredIds(c.limit, c.threshold, rest.pending, rest.window, false, false);
    TriggeredEmpty(c.limit, c.threshold, rest.pending, rest.window);
    IdsCat(l.sent, Triggered(c.limit, c.threshold, rest.pending, rest.window, false, false).messages);
  }

  /** One acknowledgement of the oldest download. */
  lemma HeadAcked(c: Limits, l: Link) returns (l1: Link)
    requires LinkOk(c, l, 0) && 1 <= c.limit < UINT_RANGE && c.threshold <= c.limit
    requires l.window.active != []
    ensures l1 == Next(c, l, Ack(l.window.active[0])) && LinkOk(c, l1, 0) && HeadGone(l, l1)
  {
    l1 := Next(c, l, Ack(l.window.active[0]));
    var id := l.window.active[0];
    AckKeepsPrefix(l.pending, l.window.active, id);
    RemovedAt(l.pending, 0);
    RestTriggered(c, l, Link(Removed(l.pending, id), Window(RemovedOne(l.window.active, id), l.window.cached), l.sent));
  }

  ghost predicate Drained(l: Link, l': Link) {
    && l'.pending == [] && l'.window.active == []
    && |l.window.active| <= |l.pending| && Ids(l'.sent) == Ids(l.sent) + l.pending[|l.window.active|..]
    && l'.sent != [] && l'.sent[|l'.sent| - 1] == LastChanged
  }

  lemma TailJoin(ids: seq<nat>, ids1: seq<nat>, ids': seq<nat>, pending: seq<nat>, a: nat, a1: nat)
    requires 1 <= a <= a1 + 1 <= |pending|
    requires ids1 == ids + pending[1..][a - 1..a1]
    requires ids' == ids1 + pending[1..][a1..]
    ensures ids' == ids + pending[a..]
  {
    assert pending[a..] == pending[1..][a - 1..a1] + pending[1..][a1..];
  }

  lemma DrainedOneMore(l: Link, l1: Link, l': Link)
    requires l.window.active != [] && HeadGone(l, l1) && l1.pending != [] && Drained(l1, l')
    ensures Drained(l, l')
  {
    var a, a1 := |l.window.active|, |l1.window.active|;
    TailJoin(Ids(l.sent), Ids(l1.sent), Ids(l'.sent), l.pending, a, a1);
  }

  lemma DrainedLast(l: Link, l1: Link)
    requires l.window.active != [] && HeadGone(l, l1) && l1.pending == []
    ensures Drained(l, l1)
  {
    assert |l.pending| == 1 && |l.window.active| == 1;
    var none := l1.pending[0..0];
    assert none == [] && l.pending[1..] == [];
    assert Ids(l.sent) + none == Ids(l.sent);
  }

  lemma AckHeadsStep(c: Limits, l: Link, n: nat)
    requires l.window.active != []
    ensures AckHeads(c, l, n + 1) == AckHeads(c, Next(c, l, Ack(l.window.active[0])), n)
  {}

  lemma AckNoHeads(c: Limits, l: Link)
    ensures AckHeads(c, l, 0) == l
  {}

  lemma HeadThenRest(c: Limits, l: Link, l1: Link)
    requires l.window.active != [] && HeadGone(l, l1) && l1 == Next(c, l, Ack(l.window.active[0]))
    requires l1.pending != [] ==> Drained(l1, AckHeads(c, l1, |l1.pending|))
    ensures Drained(l, AckHeads(c, l, |l.pending|))
  {
    AckHeadsStep(c, l, |l1.pending|);
    assert |l.pending| == |l1.pending| + 1;
    if l1.pending == [] {
      AckNoHeads(c, l1);
      DrainedLast(l, l1);
    } else {
      DrainedOneMore(l, l1, AckHeads(c, l1, |l1.pending|));
    }
  }

  /** As long as changes are pending there is a download to acknowledge, and acknowledging them
      one by one delivers the whole queue in order and ends with `LastChanged`. */
  lemma {:induction false} QueueDrains(c: Limits, l: Link)
    requires LinkOk(c, l, 0) && 1 <= c.limit < UINT_RANGE && c.threshold <= c.limit
    requires l.window.active != []
    ensures Drained(l, AckHeads(c, l, |l.pending|))
    decreases |l.pending|
  {
    var l1 := HeadAcked(c, l);
    if l1.pending != [] {
      QueueDrains(c, l1);
    }
    HeadThenRest(c, l, l1);
  }
}
