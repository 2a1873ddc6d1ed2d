/** The replication of one object between the devices of one account, as a step system.

    Each device has its row, at most one upload it waits for, and a line of messages on the
    way to the server.  The server keeps every accepted change until each other device has
    acknowledged it, except that a newer change of the same source replaces an older one.
    Connections may break at any time: messages of a broken connection may still be processed
    or may vanish, their acknowledgements are lost, and downloads may be repeated, delayed and
    reordered at will.
 */
module Replication {
  import opened Rows
  import opened Merge

  type Device = nat

  datatype System = System(devices: set<Device>, cfg: Device -> Config)

  /** An upload on its way; `live` as long as the connection it was sent on exists. */
  datatype Message = Message(entry: Entry, live: bool)

  /** What the device remembers of an upload until it is acknowledged. */
  datatype Upload = Upload(version: nat, isDelete: bool)

  datatype Change = Change(source: Device, entry: Entry)

  /** `log` holds every change the server ever accepted, under its id.  `pending` is the table
      of devices that still have to acknowledge a change, `sent` the downloads that were ever
      started, and `merged` those whose acknowledgement is on its way. */
  datatype Net = Net(
    rows: map<Device, Option<Row>>,
    active: map<Device, Option<Upload>>,
    up: map<Device, seq<Message>>,
    acked: set<Device>,
    log: seq<Change>,
    pending: set<(Device, nat)>,
    sent: set<(Device, nat)>,
    merged: set<(Device, nat)>)

  datatype Action =
    | Save(d: Device, data: Json)
    | Remove(d: Device)
    | StartUpload(d: Device)
    | Accept(d: Device)
    | AckUpload(d: Device)
    | Reconnect(d: Device)
    | Drop(d: Device, i: nat)
    | Send(d: Device, id: nat)
    | MergeChange(d: Device, id: nat)
    | Complete(d: Device, id: nat)

  predicate IsLocalWrite(a: Action) {
    a.Save? || a.Remove?
  }

  function Initial(sys: System): Net {
    Net(map d | d in sys.devices :: None, map d | d in sys.devices :: None, map d | d in sys.devices :: [],
        {}, [], {}, {}, {})
  }

  ghost predicate WellFormed(sys: System, s: Net) {
    s.rows.Keys == s.active.Keys == s.up.Keys == sys.devices
  }

  ghost predicate Enabled(sys: System, s: Net, a: Action)
    requires WellFormed(sys, s)
  {
    a.d in sys.devices &&
    match a
    case Save(_, _) => true
    case Remove(_) => true
    case StartUpload(d) => s.rows[d].Some? && s.rows[d].value.changed && s.active[d].None?
    case Accept(d) => s.up[d] != []
    case AckUpload(d) => d in s.acked && s.active[d].Some?
    case Reconnect(_) => true
    case Drop(d, i) => i < |s.up[d]| && !s.up[d][i].live
    case Send(d, id) => (d, id) in s.pending
    case MergeChange(d, id) => (d, id) in s.sent && id < |s.log|
    case Complete(d, id) => (d, id) in s.merged
  }

  /** A message of a connection that is gone. */
  function Dead(m: Message): Message {
    m.(live := false)
  }

  /** Inserting a change: the previous one of the same source goes, and every other device
      has to acknowledge the new one. */
  ghost function Accepted(sys: System, s: Net, d: Device, entry: Entry): Net {
    s.(log := s.log + [Change(d, entry)],
       pending := (set p | p in s.pending && !(p.1 < |s.log| && s.log[p.1].source == d))
                  + (set x | x in sys.devices && x != d :: (x, |s.log|)))
  }

  /** One step; an action that is not enabled changes nothing. */
  ghost function Apply(sys: System, s: Net, a: Action): Net
    requires WellFormed(sys, s)
  {
    if !Enabled(sys, s, a) then s else
    match a
    case Save(d, data) => s.(rows := s.rows[d := Some(Saved(s.rows[d], data))])
    case Remove(d) => s.(rows := s.rows[d := Removed(s.rows[d])])
    case StartUpload(d) =>
      var e := s.rows[d].value.entry;
      s.(active := s.active[d := Some(Upload(e.version, e.content.Tombstone?))],
         up := s.up[d := s.up[d] + [Message(e, true)]])
    case Accept(d) =>
      var m := s.up[d][0];
      var s1 := s.(up := s.up[d := s.up[d][1..]], acked := if m.live then s.acked + {d} else s.acked);
      Accepted(sys, s1, d, m.entry)
    case AckUpload(d) =>
      var u := s.active[d].value;
      s.(rows := s.rows[d := MarkedUnchanged(sys.cfg(d), s.rows[d], u.version, u.isDelete)],
         active := s.active[d := None],
         acked := s.acked - {d})
    case Reconnect(d) =>
      s.(active := s.active[d := None],
         acked := s.acked - {d},
         up := s.up[d := seq(|s.up[d]|, i requires 0 <= i < |s.up[d]| => Dead(s.up[d][i]))])
    case Drop(d, i) => s.(up := s.up[d := s.up[d][..i] + s.up[d][i + 1..]])
    case Send(d, id) => s.(sent := s.sent + {(d, id)})
    case MergeChange(d, id) =>
      s.(rows := s.rows[d := Synced(sys.cfg(d), s.rows[d], s.log[id].entry)],
         merged := s.merged + {(d, id)})
    case Complete(d, id) => s.(pending := s.pending - {(d, id)})
  }

  lemma ApplyWellFormed(sys: System, s: Net, a: Action)
    requires WellFormed(sys, s)
    ensures WellFormed(sys, Apply(sys, s, a))
  {}

  /** The state after a run. */
  ghost function After(sys: System, s: Net, run: seq<Action>): (r: Net)
    requires WellFormed(sys, s)
    ensures WellFormed(sys, r)
    decreases |run|
  {
    if run == [] then s
    else
      ApplyWellFormed(sys, s, run[0]);
      After(sys, Apply(sys, s, run[0]), run[1..])
  }

  lemma {:induction false} AfterAppend(sys: System, s: Net, run1: seq<Action>, run2: seq<Action>)
    requires WellFormed(sys, s)
    ensures After(sys, s, run1 + run2) == After(sys, After(sys, s, run1), run2)
    decreases |run1|
  {
    if run1 == [] {
      assert run1 + run2 == run2;
    } else {
      assert (run1 + run2)[1..] == run1[1..] + run2;
      ApplyWellFormed(sys, s, run1[0]);
      AfterAppend(sys, Apply(sys, s, run1[0]), run1[1..], run2);
    }
  }

  // ---- what a step does, one part of the state at a time

  /** A local write gives the next version, or version 1 to a new object. */
  ghost predicate Wrote(row: Option<Row>, content: Content, row': Option<Row>) {
    row' == Some(Row(Entry(if row.None? then 1 else row.value.entry.version + 1, content), true))
  }

  /** An acknowledgement clears the mark of the version that was uploaded, and drops a deletion
      that is not persisted. */
  ghost predicate Marked(cfg: Config, row: Option<Row>, u: Upload, row': Option<Row>) {
    if row.None? || row.value.entry.version != u.version then row' == row
    else if u.isDelete && !cfg.persistDeleted then row' == if row.value.entry.content.Tombstone? then None else row
    else row' == Some(Row(row.value.entry, false))
  }

  ghost predicate RowEffect(sys: System, s: Net, a: Action, row': Option<Row>)
    requires WellFormed(sys, s) && Enabled(sys, s, a)
  {
    var cfg, row := sys.cfg(a.d), s.rows[a.d];
    match a
    case Save(_, data) => Wrote(row, Live(data), row')
    case Remove(_) => if row.Some? && row.value.entry.content.Live? then Wrote(row, Tombstone, row') else row' == row
    case AckUpload(d) => Marked(cfg, row, s.active[d].value, row')
    case MergeChange(_, id) => IdealChecksum(cfg) ==> MergedAs(cfg, row, s.log[id].entry, row')
    case _ => row' == row
  }

  /** The connection of the device: what it waits for, and what is on its way. */
  ghost predicate LineEffect(sys: System, s: Net, a: Action, active': Option<Upload>, up': seq<Message>, acked': bool)
    requires WellFormed(sys, s) && Enabled(sys, s, a)
  {
    var active, up, acked := s.active[a.d], s.up[a.d], a.d in s.acked;
    match a
    case StartUpload(d) =>
      var e := s.rows[d].value.entry;
      active' == Some(Upload(e.version, e.content.Tombstone?)) && up' == up + [Message(e, true)] && acked' == acked
    case Accept(_) => active' == active && [up[0]] + up' == up && acked' == (acked || up[0].live)
    case AckUpload(_) => active' == None && up' == up && !acked'
    case Reconnect(_) =>
      active' == None && !acked' && |up'| == |up|
      && forall i :: 0 <= i < |up| ==> up'[i].entry == up[i].entry && !up'[i].live
    case Drop(_, i) => active' == active && acked' == acked && i <= |up'| && up == up'[..i] + [up[i]] + up'[i..]
    case _ => active' == active && up' == up && acked' == acked
  }

  /** The server: an accepted change gets the next id and waits for every other device, in place
      of the older changes of its sender. */
  ghost predicate ServerEffect(sys: System, s: Net, a: Action, s': Net)
    requires WellFormed(sys, s) && Enabled(sys, s, a)
  {
    match a
    case Accept(d) =>
      && s'.log == s.log + [Change(d, s.up[d][0].entry)]
      && forall x, id :: (x, id) in s'.pending <==>
           (id == |s.log| && x in sys.devices && x != d)
           || ((x, id) in s.pending && (id < |s.log| ==> s.log[id].source != d))
    case Complete(d, id) => s'.log == s.log && forall p :: p in s'.pending <==> p in s.pending && p != (d, id)
    case _ => s'.log == s.log && s'.pending == s.pending
  }

  /** A step of one device leaves the others alone; what was sent or merged stays so. */
  ghost predicate OthersStay(sys: System, s: Net, a: Action, s': Net)
    requires WellFormed(sys, s) && WellFormed(sys, s')
  {
    && (forall x :: x in sys.devices && x != a.d ==>
          s'.rows[x] == s.rows[x] && s'.active[x] == s.active[x] && s'.up[x] == s.up[x] && (x in s'.acked <==> x in s.acked))
    && s'.sent == (if a.Send? then s.sent + {(a.d, a.id)} else s.sent)
    && s'.merged == (if a.MergeChange? then s.merged + {(a.d, a.id)} else s.merged)
  }

  ghost predicate Effect(sys: System, s: Net, a: Action, s': Net)
    requires WellFormed(sys, s) && Enabled(sys, s, a)
  {
    && WellFormed(sys, s') && OthersStay(sys, s, a, s')
    && RowEffect(sys, s, a, s'.rows[a.d])
    && LineEffect(sys, s, a, s'.active[a.d], s'.up[a.d], a.d in s'.acked)
    && ServerEffect(sys, s, a, s')
  }

  lemma RowStep(sys: System, s: Net, a: Action)
    requires WellFormed(sys, s) && Enabled(sys, s, a)
    ensures RowEffect(sys, s, a, Apply(sys, s, a).rows[a.d])
  {
    if a.MergeChange? && IdealChecksum(sys.cfg(a.d)) {
      SyncedIff(sys.cfg(a.d), s.rows[a.d], s.log[a.id].entry, Apply(sys, s, a).rows[a.d]);
    }
  }

  lemma LineStep(sys: System, s: Net, a: Action)
    requires WellFormed(sys, s) && Enabled(sys, s, a)
    ensures var s' := Apply(sys, s, a); LineEffect(sys, s, a, s'.active[a.d], s'.up[a.d], a.d in s'.acked)
  {
    var s' := Apply(sys, s, a);
    if a.Drop? { assert s.up[a.d] == s'.up[a.d][..a.i] + [s.up[a.d][a.i]] + s'.up[a.d][a.i..]; }
  }

  lemma ServerStep(sys: System, s: Net, a: Action)
    requires WellFormed(sys, s) && Enabled(sys, s, a)
    ensures ServerEffect(sys, s, a, Apply(sys, s, a))
  {}

  lemma OthersStep(sys: System, s: Net, a: Action)
    requires WellFormed(sys, s) && Enabled(sys, s, a)
    ensures WellFormed(sys, Apply(sys, s, a)) && OthersStay(sys, s, a, Apply(sys, s, a))
  {}

  lemma StepEffect(sys: System, s: Net, a: Action)
    requires WellFormed(sys, s)
    ensures if Enabled(sys, s, a) then Effect(sys, s, a, Apply(sys, s, a)) else Apply(sys, s, a) == s
  {
    if Enabled(sys, s, a) {
      OthersStep(sys, s, a);
      RowStep(sys, s, a);
      LineStep(sys, s, a);
      ServerStep(sys, s, a);
    }
  }

  // ---- the invariant

  ghost predicate PersistsDeleted(sys: System) {
    forall d :: d in sys.devices ==> sys.cfg(d).persistDeleted
  }

  ghost predicate IdsAreKnown(sys: System, s: Net) {
    && (forall p :: p in s.pending ==> p.0 in sys.devices && p.1 < |s.log|)
    && (forall p :: p in s.sent ==> p.1 < |s.log|)
    && (forall p :: p in s.merged ==> p.1 < |s.log|)
  }

  /** Nothing a device sent is ahead of its row, and it was sent in the order it was written. */
  ghost predicate SentInOrder(sys: System, s: Net)
    requires WellFormed(sys, s)
  {
    && (forall id :: 0 <= id < |s.log| ==>
          s.log[id].source in sys.devices && RowCovers(s.rows[s.log[id].source], s.log[id].entry))
    && (forall id, id' :: 0 <= id < id' < |s.log| && s.log[id].source == s.log[id'].source ==>
          Covers(s.log[id'].entry, s.log[id].entry))
    && (forall d, i :: d in sys.devices && 0 <= i < |s.up[d]| ==> RowCovers(s.rows[d], s.up[d][i].entry))
    && (forall d, i, j :: d in sys.devices && 0 <= i < j < |s.up[d]| ==>
          Covers(s.up[d][j].entry, s.up[d][i].entry))
    && (forall id, j :: 0 <= id < |s.log| && 0 <= j < |s.up[s.log[id].source]| ==>
          Covers(s.up[s.log[id].source][j].entry, s.log[id].entry))
  }

  /** `x` still has to take in the change `id` or a later one of the same source. */
  ghost predicate Waits(s: Net, x: Device, id: nat) {
    exists id' :: id <= id' < |s.log| && id < |s.log| && (x, id') in s.pending
                  && s.log[id'].source == s.log[id].source
  }

  /** Every distributed change is, for each device, covered by its row or still pending. */
  ghost predicate Distributed(sys: System, s: Net)
    requires WellFormed(sys, s)
  {
    && (forall id, x :: 0 <= id < |s.log| && x in sys.devices && x != s.log[id].source ==>
          RowCovers(s.rows[x], s.log[id].entry) || Waits(s, x, id))
    && (forall p :: p in s.merged && p.0 in sys.devices && p.1 < |s.log| ==>
          RowCovers(s.rows[p.0], s.log[p.1].entry))
  }

  /** The server has exactly this entry, from the device itself or as a change it merged. */
  ghost predicate OnServer(s: Net, d: Device, e: Entry) {
    exists id :: 0 <= id < |s.log| && s.log[id].entry == e && (s.log[id].source == d || (d, id) in s.merged)
  }

  ghost predicate AcceptedVersion(s: Net, d: Device, version: nat) {
    exists id :: 0 <= id < |s.log| && s.log[id].source == d && s.log[id].entry.version == version
  }

  /** A row counts as unchanged only if the server has it. */
  ghost predicate NothingLost(sys: System, s: Net)
    requires WellFormed(sys, s)
  {
    forall d :: d in sys.devices && s.rows[d].Some? && !s.rows[d].value.changed ==>
      OnServer(s, d, s.rows[d].value.entry)
  }

  /** At most one upload per connection, and an acknowledgement only for an accepted one. */
  ghost predicate UploadsTracked(sys: System, s: Net)
    requires WellFormed(sys, s)
  {
    && (forall d, i :: d in sys.devices && 0 <= i < |s.up[d]| && s.up[d][i].live ==>
          s.active[d].Some? && s.active[d].value.version == s.up[d][i].entry.version)
    && (forall d, i, j :: d in sys.devices && 0 <= i < j < |s.up[d]| ==> !(s.up[d][i].live && s.up[d][j].live))
    && (forall d :: d in s.acked && d in sys.devices ==>
          s.active[d].Some? && AcceptedVersion(s, d, s.active[d].value.version)
          && forall i :: 0 <= i < |s.up[d]| ==> !s.up[d][i].live)
  }

  ghost predicate Inv(sys: System, s: Net) {
    && WellFormed(sys, s)
    && IdsAreKnown(sys, s)
    && SentInOrder(sys, s)
    && Distributed(sys, s)
    && NothingLost(sys, s)
    && UploadsTracked(sys, s)
  }

  lemma InitialInv(sys: System)
    ensures Inv(sys, Initial(sys))
  {}

  // ---- one lemma per kind of step

  /** What a row may turn into without hurting anything it covered before. */
  ghost predicate RowGrows(r: Option<Row>, r': Option<Row>) {
    r.Some? ==> RowCovers(r', r.value.entry)
  }

  /** `s'` is `s` with the row of `d` moved upwards, to a row that may count as unchanged. */
  ghost predicate RowMoves(sys: System, s: Net, s': Net, d: Device) {
    && Inv(sys, s) && WellFormed(sys, s') && d in sys.devices
    && s'.rows == s.rows[d := s'.rows[d]] && RowGrows(s.rows[d], s'.rows[d])
    && s'.up == s.up && s'.log == s.log && s'.pending == s.pending && s'.sent == s.sent
    && s.merged <= s'.merged
    && (forall p :: p in s'.merged - s.merged ==>
          p.0 == d && p.1 < |s.log| && RowCovers(s'.rows[d], s.log[p.1].entry))
    && (s'.rows[d].Some? && !s'.rows[d].value.changed ==> OnServer(s', d, s'.rows[d].value.entry))
  }

  lemma RowMoveKeepsCover(sys: System, s: Net, s': Net, d: Device, x: Device, e: Entry)
    requires RowMoves(sys, s, s', d) && x in sys.devices && RowCovers(s.rows[x], e)
    ensures RowCovers(s'.rows[x], e)
  {
    if x == d { CoversTransitive(s'.rows[d].value.entry, s.rows[d].value.entry, e); }
  }

  lemma RowMoveKeepsOrder(sys: System, s: Net, s': Net, d: Device)
    requires RowMoves(sys, s, s', d)
    ensures SentInOrder(sys, s')
  {
    forall id | 0 <= id < |s'.log|
      ensures s'.log[id].source in sys.devices && RowCovers(s'.rows[s'.log[id].source], s'.log[id].entry)
    {
      RowMoveKeepsCover(sys, s, s', d, s.log[id].source, s.log[id].entry);
    }
    forall x, i | x in sys.devices && 0 <= i < |s'.up[x]| ensures RowCovers(s'.rows[x], s'.up[x][i].entry) {
      RowMoveKeepsCover(sys, s, s', d, x, s.up[x][i].entry);
    }
  }

  lemma WaitsStays(s: Net, s': Net, x: Device, id: nat)
    requires s'.log == s.log && s'.pending == s.pending && Waits(s, x, id)
    ensures Waits(s', x, id)
  {
    var id' :| id <= id' < |s.log| && id < |s.log| && (x, id') in s.pending && s.log[id'].source == s.log[id].source;
    assert s'.log[id'] == s.log[id'];
  }

  lemma RowMoveKeepsWaits(sys: System, s: Net, s': Net, d: Device, id: nat, x: Device)
    requires RowMoves(sys, s, s', d) && id < |s.log| && x in sys.devices && x != s.log[id].source
    ensures RowCovers(s'.rows[x], s.log[id].entry) || Waits(s', x, id)
  {
    if RowCovers(s.rows[x], s.log[id].entry) {
      RowMoveKeepsCover(sys, s, s', d, x, s.log[id].entry);
    } else {
      WaitsStays(s, s', x, id);
    }
  }

  lemma RowMoveKeepsMerged(sys: System, s: Net, s': Net, d: Device, p: (Device, nat))
    requires RowMoves(sys, s, s', d) && p in s'.merged
    ensures p.1 < |s.log| && (p.0 in sys.devices ==> RowCovers(s'.rows[p.0], s.log[p.1].entry))
  {
    if p in s.merged {
      if p.0 in sys.devices { RowMoveKeepsCover(sys, s, s', d, p.0, s.log[p.1].entry); }
    } else {
      assert p in s'.merged - s.merged;
    }
  }

  lemma RowMoveKeepsDistribution(sys: System, s: Net, s': Net, d: Device)
    requires RowMoves(sys, s, s', d)
    ensures Distributed(sys, s') && IdsAreKnown(sys, s')
  {
    forall id, x | 0 <= id < |s'.log| && x in sys.devices && x != s'.log[id].source
      ensures RowCovers(s'.rows[x], s'.log[id].entry) || Waits(s', x, id)
    {
      RowMoveKeepsWaits(sys, s, s', d, id, x);
    }
    forall p | p in s'.merged ensures p.1 < |s'.log| && (p.0 in sys.devices ==> RowCovers(s'.rows[p.0], s'.log[p.1].entry)) {
      RowMoveKeepsMerged(sys, s, s', d, p);
    }
  }

  lemma RowMoveKeepsServed(sys: System, s: Net, s': Net, d: Device)
    requires RowMoves(sys, s, s', d)
    ensures NothingLost(sys, s')
  {
    AcceptedStays(s, s');
  }

  lemma RowMoveKeepsInv(sys: System, s: Net, s': Net, d: Device)
    requires RowMoves(sys, s, s', d) && UploadsTracked(sys, s')
    ensures Inv(sys, s')
  {
    RowMoveKeepsOrder(sys, s, s', d);
    RowMoveKeepsDistribution(sys, s, s', d);
    RowMoveKeepsServed(sys, s, s', d);
  }

  lemma LocalWriteKeepsInv(sys: System, s: Net, a: Action) returns (s': Net)
    requires Inv(sys, s) && IsLocalWrite(a)
    ensures s' == Apply(sys, s, a) && Inv(sys, s')
  {
    s' := Apply(sys, s, a);
    if a.d in sys.devices {
      if a.Save? || s.rows[a.d].Some? {
        if s'.rows[a.d] == s.rows[a.d] {
          assert s'.rows == s.rows;
        } else {
          TrackedSameAcks(sys, s, s');
          RowMoveKeepsInv(sys, s, s', a.d);
        }
      } else {
        assert s'.rows == s.rows;
      }
    }
  }

  /** The log only grows, so what was accepted stays accepted. */
  lemma AcceptedStays(s: Net, s': Net)
    requires s.log <= s'.log
    ensures forall x, v :: AcceptedVersion(s, x, v) ==> AcceptedVersion(s', x, v)
    ensures s.merged <= s'.merged ==> forall x, e :: OnServer(s, x, e) ==> OnServer(s', x, e)
  {
    forall x, v | AcceptedVersion(s, x, v) ensures AcceptedVersion(s', x, v) {
      var id :| 0 <= id < |s.log| && s.log[id].source == x && s.log[id].entry.version == v;
      assert s'.log[id] == s.log[id];
    }
    forall x, e | s.merged <= s'.merged && OnServer(s, x, e) ensures OnServer(s', x, e) {
      var id :| 0 <= id < |s.log| && s.log[id].entry == e && (s.log[id].source == x || (x, id) in s.merged);
      assert s'.log[id] == s.log[id];
    }
  }

  /** Uploads stay tracked when nothing they speak of changes. */
  lemma TrackedSameAcks(sys: System, s: Net, s': Net)
    requires WellFormed(sys, s) && WellFormed(sys, s') && UploadsTracked(sys, s)
    requires s'.up == s.up && s'.active == s.active && s'.acked == s.acked && s'.log == s.log
    ensures UploadsTracked(sys, s')
  {
    AcceptedStays(s, s');
  }

  lemma StartUploadTracks(sys: System, s: Net, d: Device, s': Net)
    requires WellFormed(sys, s) && UploadsTracked(sys, s)
    requires Enabled(sys, s, StartUpload(d)) && s' == Apply(sys, s, StartUpload(d))
    ensures UploadsTracked(sys, s')
  {
    forall i | 0 <= i < |s.up[d]| ensures !s.up[d][i].live {}
    assert d !in s.acked;
    AcceptedStays(s, s');
  }

  lemma StartUploadKeepsOrder(sys: System, s: Net, d: Device, s': Net)
    requires WellFormed(sys, s) && SentInOrder(sys, s)
    requires Enabled(sys, s, StartUpload(d)) && s' == Apply(sys, s, StartUpload(d))
    ensures SentInOrder(sys, s')
  {}

  lemma StartUploadKeepsInv(sys: System, s: Net, d: Device) returns (s': Net)
    requires Inv(sys, s) && Enabled(sys, s, StartUpload(d))
    ensures s' == Apply(sys, s, StartUpload(d)) && Inv(sys, s')
  {
    s' := Apply(sys, s, StartUpload(d));
    KeepsDistribution(sys, s, s');
    StartUploadKeepsOrder(sys, s, d, s');
    StartUploadTracks(sys, s, d, s');
  }

  /** The parts of the invariant about rows and log only. */
  lemma KeepsDistribution(sys: System, s: Net, s': Net)
    requires Inv(sys, s) && WellFormed(sys, s')
    requires s'.rows == s.rows && s'.log == s.log && s'.pending == s.pending && s'.merged == s.merged
    ensures Distributed(sys, s') && NothingLost(sys, s')
  {
    forall id, x | 0 <= id < |s'.log| && x in sys.devices && x != s'.log[id].source
      ensures RowCovers(s'.rows[x], s'.log[id].entry) || Waits(s', x, id)
    {
      if Waits(s, x, id) { WaitsStays(s, s', x, id); }
    }
    AcceptedStays(s, s');
  }

  /** Accepting replaces what was pending of the same source by something that covers it. */
  lemma AcceptDistributes(sys: System, s: Net, d: Device, s': Net)
    requires WellFormed(sys, s) && IdsAreKnown(sys, s) && Distributed(sys, s)
    requires Enabled(sys, s, Accept(d)) && s' == Apply(sys, s, Accept(d))
    ensures Distributed(sys, s')
  {
    var n := |s.log|;
    forall id, x | 0 <= id < |s'.log| && x in sys.devices && x != s'.log[id].source
      ensures RowCovers(s'.rows[x], s'.log[id].entry) || Waits(s', x, id)
    {
      if s'.log[id].source == d {
        assert (x, n) in s'.pending && s'.log[n].source == d;
      } else if Waits(s, x, id) {
        var id' :| id <= id' < |s.log| && (x, id') in s.pending && s.log[id'].source == s.log[id].source;
        assert (x, id') in s'.pending && s'.log[id'] == s.log[id'];
      }
    }
  }

  lemma AcceptTracks(sys: System, s: Net, d: Device, s': Net)
    requires WellFormed(sys, s) && UploadsTracked(sys, s)
    requires Enabled(sys, s, Accept(d)) && s' == Apply(sys, s, Accept(d))
    ensures UploadsTracked(sys, s')
  {
    var m := s.up[d][0];
    AcceptedStays(s, s');
    assert forall i :: 0 <= i < |s'.up[d]| ==> s'.up[d][i] == s.up[d][i + 1];
    if m.live {
      assert s'.log[|s.log|] == Change(d, m.entry);
      assert AcceptedVersion(s', d, m.entry.version);
    }
  }

  lemma AcceptKeepsOrder(sys: System, s: Net, d: Device, s': Net)
    requires WellFormed(sys, s) && SentInOrder(sys, s)
    requires Enabled(sys, s, Accept(d)) && s' == Apply(sys, s, Accept(d))
    ensures SentInOrder(sys, s')
  {
    assert forall i :: 0 <= i < |s'.up[d]| ==> s'.up[d][i] == s.up[d][i + 1];
  }

  lemma AcceptKeepsInv(sys: System, s: Net, d: Device) returns (s': Net)
    requires Inv(sys, s) && Enabled(sys, s, Accept(d))
    ensures s' == Apply(sys, s, Accept(d)) && Inv(sys, s')
  {
    s' := Apply(sys, s, Accept(d));
    AcceptedStays(s, s');
    AcceptDistributes(sys, s, d, s');
    AcceptKeepsOrder(sys, s, d, s');
    AcceptTracks(sys, s, d, s');
  }

  lemma AckTracks(sys: System, s: Net, d: Device, s': Net)
    requires WellFormed(sys, s) && UploadsTracked(sys, s)
    requires Enabled(sys, s, AckUpload(d)) && s' == Apply(sys, s, AckUpload(d))
    ensures UploadsTracked(sys, s')
  {
    AcceptedStays(s, s');
  }

  lemma AckKeepsInv(sys: System, s: Net, d: Device) returns (s': Net)
    requires Inv(sys, s) && PersistsDeleted(sys) && Enabled(sys, s, AckUpload(d))
    ensures s' == Apply(sys, s, AckUpload(d)) && Inv(sys, s')
  {
    s' := Apply(sys, s, AckUpload(d));
    var u := s.active[d].value;
    AcceptedStays(s, s');
    var id :| 0 <= id < |s.log| && s.log[id].source == d && s.log[id].entry.version == u.version;
    assert RowCovers(s.rows[d], s.log[id].entry);
    if s.rows[d].value.entry.version == u.version {
      assert s.log[id].entry == s.rows[d].value.entry;
      assert OnServer(s, d, s.rows[d].value.entry);
    }
    AckTracks(sys, s, d, s');
    RowMoveKeepsInv(sys, s, s', d);
  }

  lemma ReconnectKeepsOrder(sys: System, s: Net, d: Device, s': Net)
    requires WellFormed(sys, s) && SentInOrder(sys, s)
    requires Enabled(sys, s, Reconnect(d)) && s' == Apply(sys, s, Reconnect(d))
    ensures SentInOrder(sys, s')
  {
    assert forall i :: 0 <= i < |s'.up[d]| ==> s'.up[d][i] == Dead(s.up[d][i]);
  }

  lemma ReconnectTracks(sys: System, s: Net, d: Device, s': Net)
    requires WellFormed(sys, s) && UploadsTracked(sys, s)
    requires Enabled(sys, s, Reconnect(d)) && s' == Apply(sys, s, Reconnect(d))
    ensures UploadsTracked(sys, s')
  {
    AcceptedStays(s, s');
    assert forall i :: 0 <= i < |s'.up[d]| ==> s'.up[d][i] == Dead(s.up[d][i]);
  }

  lemma ReconnectKeepsInv(sys: System, s: Net, d: Device) returns (s': Net)
    requires Inv(sys, s) && Enabled(sys, s, Reconnect(d))
    ensures s' == Apply(sys, s, Reconnect(d)) && Inv(sys, s')
  {
    s' := Apply(sys, s, Reconnect(d));
    ReconnectKeepsOrder(sys, s, d, s');
    KeepsDistribution(sys, s, s');
    ReconnectTracks(sys, s, d, s');
  }

  lemma DropKeepsOrder(sys: System, s: Net, d: Device, i: nat, s': Net)
    requires WellFormed(sys, s) && SentInOrder(sys, s)
    requires Enabled(sys, s, Drop(d, i)) && s' == Apply(sys, s, Drop(d, i))
    ensures SentInOrder(sys, s')
  {
    assert forall k :: 0 <= k < |s'.up[d]| ==> s'.up[d][k] == s.up[d][if k < i then k else k + 1];
  }

  lemma DropTracks(sys: System, s: Net, d: Device, i: nat, s': Net)
    requires WellFormed(sys, s) && UploadsTracked(sys, s)
    requires Enabled(sys, s, Drop(d, i)) && s' == Apply(sys, s, Drop(d, i))
    ensures UploadsTracked(sys, s')
  {
    AcceptedStays(s, s');
    assert forall k :: 0 <= k < |s'.up[d]| ==> s'.up[d][k] == s.up[d][if k < i then k else k + 1];
  }

  lemma DropKeepsInv(sys: System, s: Net, d: Device, i: nat) returns (s': Net)
    requires Inv(sys, s) && Enabled(sys, s, Drop(d, i))
    ensures s' == Apply(sys, s, Drop(d, i)) && Inv(sys, s')
  {
    s' := Apply(sys, s, Drop(d, i));
    DropKeepsOrder(sys, s, d, i, s');
    KeepsDistribution(sys, s, s');
    DropTracks(sys, s, d, i, s');
  }

  lemma MergeKeepsInv(sys: System, s: Net, d: Device, id: nat) returns (s': Net)
    requires Inv(sys, s) && PersistsDeleted(sys) && Enabled(sys, s, MergeChange(d, id))
    ensures s' == Apply(sys, s, MergeChange(d, id)) && Inv(sys, s')
  {
    s' := Apply(sys, s, MergeChange(d, id));
    var e := s.log[id].entry;
    SyncedIsUpperBound(sys.cfg(d), s.rows[d], e);
    TrackedSameAcks(sys, s, s');
    if !s'.rows[d].value.changed {
      if s'.rows[d].value.entry == e {
        assert s'.log[id].entry == e && (d, id) in s'.merged;
      } else {
        var i :| 0 <= i < |s.log| && s.log[i].entry == s.rows[d].value.entry
                 && (s.log[i].source == d || (d, i) in s.merged);
        assert s'.log[i] == s.log[i];
      }
    }
    RowMoveKeepsInv(sys, s, s', d);
  }

  lemma CompleteKeepsDistribution(sys: System, s: Net, d: Device, id: nat, s': Net)
    requires WellFormed(sys, s) && IdsAreKnown(sys, s) && SentInOrder(sys, s) && Distributed(sys, s)
    requires Enabled(sys, s, Complete(d, id)) && s' == Apply(sys, s, Complete(d, id))
    ensures Distributed(sys, s')
  {
    forall i, x | 0 <= i < |s'.log| && x in sys.devices && x != s'.log[i].source
      ensures RowCovers(s'.rows[x], s'.log[i].entry) || Waits(s', x, i)
    {
      if !RowCovers(s.rows[x], s.log[i].entry) {
        var i' :| i <= i' < |s.log| && (x, i') in s.pending && s.log[i'].source == s.log[i].source;
        if (x, i') == (d, id) {
          assert RowCovers(s.rows[d], s.log[id].entry);
          CoversTransitive(s.rows[d].value.entry, s.log[id].entry, s.log[i].entry);
        } else {
          assert (x, i') in s'.pending && s'.log[i'] == s.log[i'];
        }
      }
    }
  }

  lemma CompleteKeepsInv(sys: System, s: Net, d: Device, id: nat) returns (s': Net)
    requires Inv(sys, s) && Enabled(sys, s, Complete(d, id))
    ensures s' == Apply(sys, s, Complete(d, id)) && Inv(sys, s')
  {
    s' := Apply(sys, s, Complete(d, id));
    TrackedSameAcks(sys, s, s');
    CompleteKeepsDistribution(sys, s, d, id, s');
    AcceptedStays(s, s');
  }

  lemma SendKeepsInv(sys: System, s: Net, d: Device, id: nat) returns (s': Net)
    requires Inv(sys, s) && Enabled(sys, s, Send(d, id))
    ensures s' == Apply(sys, s, Send(d, id)) && Inv(sys, s')
  {
    s' := Apply(sys, s, Send(d, id));
    TrackedSameAcks(sys, s, s');
    KeepsDistribution(sys, s, s');
  }

  /** Every step keeps the invariant, whatever the policies and resolvers of the devices. */
  lemma StepKeepsInv(sys: System, s: Net, a: Action)
    requires PersistsDeleted(sys) && Inv(sys, s)
    ensures Inv(sys, Apply(sys, s, a))
  {
    if Enabled(sys, s, a) {
      var s';
      match a
      case Save(_, _) => s' := LocalWriteKeepsInv(sys, s, a);
      case Remove(_) => s' := LocalWriteKeepsInv(sys, s, a);
      case StartUpload(d) => s' := StartUploadKeepsInv(sys, s, d);
      case Accept(d) => s' := AcceptKeepsInv(sys, s, d);
      case AckUpload(d) => s' := AckKeepsInv(sys, s, d);
      case Reconnect(d) => s' := ReconnectKeepsInv(sys, s, d);
      case Drop(d, i) => s' := DropKeepsInv(sys, s, d, i);
      case Send(d, id) => s' := SendKeepsInv(sys, s, d, id);
      case MergeChange(d, id) => s' := MergeKeepsInv(sys, s, d, id);
      case Complete(d, id) => s' := CompleteKeepsInv(sys, s, d, id);
    }
  }

  lemma {:induction false} RunKeepsInv(sys: System, s: Net, run: seq<Action>)
    requires PersistsDeleted(sys) && Inv(sys, s)
    ensures Inv(sys, After(sys, s, run))
    decreases |run|
  {
    if run != [] {
      StepKeepsInv(sys, s, run[0]);
      RunKeepsInv(sys, Apply(sys, s, run[0]), run[1..]);
    }
  }

  // ---- the main results

  /** No row is waiting to be uploaded and nothing is pending on the server. */
  ghost predicate Quiet(sys: System, s: Net)
    requires WellFormed(sys, s)
  {
    && (forall d :: d in sys.devices && s.rows[d].Some? ==> !s.rows[d].value.changed)
    && s.pending == {}
  }

  ghost predicate Converged(sys: System, s: Net)
    requires WellFormed(sys, s)
  {
    forall x, y :: x in sys.devices && y in sys.devices ==> EntryOf(s.rows[x]) == EntryOf(s.rows[y])
  }

  lemma QuietCovers(sys: System, s: Net, x: Device, y: Device)
    requires Inv(sys, s) && Quiet(sys, s) && x in sys.devices && y in sys.devices && s.rows[x].Some?
    ensures RowCovers(s.rows[y], s.rows[x].value.entry)
  {
    var e := s.rows[x].value.entry;
    assert OnServer(s, x, e);
    var id :| 0 <= id < |s.log| && s.log[id].entry == e;
    assert !Waits(s, y, id);
  }

  lemma QuietIsConverged(sys: System, s: Net)
    requires Inv(sys, s) && Quiet(sys, s)
    ensures Converged(sys, s)
  {
    forall x, y | x in sys.devices && y in sys.devices ensures EntryOf(s.rows[x]) == EntryOf(s.rows[y]) {
      if s.rows[x].Some? { QuietCovers(sys, s, x, y); }
      if s.rows[y].Some? { QuietCovers(sys, s, y, x); }
    }
  }

  /** Convergence: after any run, whenever no row is marked as changed and no change is pending,
      all devices hold the same version and content, or none holds any. */
  lemma Convergence(sys: System, run: seq<Action>)
    requires PersistsDeleted(sys)
    ensures Quiet(sys, After(sys, Initial(sys), run)) ==> Converged(sys, After(sys, Initial(sys), run))
  {
    InitialInv(sys);
    RunKeepsInv(sys, Initial(sys), run);
    if Quiet(sys, After(sys, Initial(sys), run)) {
      QuietIsConverged(sys, After(sys, Initial(sys), run));
    }
  }

  /** No lost update: after any run, an unchanged row is, in version and content, one that the
      server accepted from this device or that this device merged from the server. */
  lemma NoLostUpdate(sys: System, run: seq<Action>, d: Device)
    requires PersistsDeleted(sys) && d in sys.devices
    ensures
      var s := After(sys, Initial(sys), run);
      s.rows[d].Some? && !s.rows[d].value.changed ==> OnServer(s, d, s.rows[d].value.entry)
  {
    InitialInv(sys);
    RunKeepsInv(sys, Initial(sys), run);
  }
}
