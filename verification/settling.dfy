/** Progress: once the local writes stop, devices that persist deletions can always still reach
    agreement, whatever happened before and whatever their policies and resolvers. */
module Settling {
  import opened Collections
  import opened Rows
  import opened Merge
  import opened Replication
  import opened Conflicts

  lemma NoLocalWritesAppend(run1: seq<Action>, run2: seq<Action>)
    requires NoLocalWrites(run1) && NoLocalWrites(run2)
    ensures NoLocalWrites(run1 + run2)
  {
    forall i | 0 <= i < |run1 + run2| ensures !IsLocalWrite((run1 + run2)[i]) {
      if i < |run1| { assert (run1 + run2)[i] == run1[i]; } else { assert (run1 + run2)[i] == run2[i - |run1|]; }
    }
  }

  lemma AfterCons(sys: System, s: Net, a: Action, rest: seq<Action>, s': Net)
    requires WellFormed(sys, s) && s' == Apply(sys, s, a) && WellFormed(sys, s')
    ensures After(sys, s, [a] + rest) == After(sys, s', rest)
  {
    assert ([a] + rest)[1..] == rest;
  }

  lemma AfterThree(sys: System, s: Net, a: Action, b: Action, c: Action, s1: Net, s2: Net, s3: Net)
    requires WellFormed(sys, s) && s1 == Apply(sys, s, a) && WellFormed(sys, s1)
    requires s2 == Apply(sys, s1, b) && WellFormed(sys, s2)
    requires s3 == Apply(sys, s2, c) && WellFormed(sys, s3)
    ensures After(sys, s, [a, b, c]) == s3
  {
    AfterCons(sys, s2, c, [], s3);
    AfterCons(sys, s1, b, [c], s2);
    AfterCons(sys, s, a, [b, c], s1);
    assert [c] + [] == [c] && [b] + [c] == [b, c] && [a] + [b, c] == [a, b, c];
  }

  // ---- delivering one pending change

  function Delivery(p: (Device, nat)): seq<Action> {
    [Send(p.0, p.1), MergeChange(p.0, p.1), Complete(p.0, p.1)]
  }

  lemma Delivered(sys: System, s: Net, p: (Device, nat))
    requires WellFormed(sys, s) && p in s.pending && p.0 in sys.devices && p.1 < |s.log|
    ensures
      After(sys, s, Delivery(p)) ==
        s.(sent := s.sent + {p}, merged := s.merged + {p}, pending := s.pending - {p},
           rows := s.rows[p.0 := Synced(sys.cfg(p.0), s.rows[p.0], s.log[p.1].entry)])
  {
    var s1 := Apply(sys, s, Send(p.0, p.1));
    var s2 := Apply(sys, s1, MergeChange(p.0, p.1));
    AfterThree(sys, s, Send(p.0, p.1), MergeChange(p.0, p.1), Complete(p.0, p.1),
               s1, s2, Apply(sys, s2, Complete(p.0, p.1)));
  }

  // ---- uploading one changed row

  lemma {:induction false} DropAll(sys: System, s: Net, d: Device, n: nat) returns (run: seq<Action>)
    requires WellFormed(sys, s) && d in sys.devices && |s.up[d]| == n
    requires forall i :: 0 <= i < n ==> !s.up[d][i].live
    ensures NoLocalWrites(run)
    ensures After(sys, s, run) == s.(up := s.up[d := []])
    decreases n
  {
    if n == 0 {
      run := [];
      assert s.up[d := []] == s.up;
    } else {
      var s1 := Apply(sys, s, Drop(d, 0));
      assert s1.up[d] == s.up[d][1..];
      var rest := DropAll(sys, s1, d, n - 1);
      run := [Drop(d, 0)] + rest;
      assert run[1..] == rest;
      assert s1.up[d := []] == s.up[d := []];
      NoLocalWritesAppend([Drop(d, 0)], rest);
    }
  }

  function Round(d: Device): seq<Action> {
    [StartUpload(d), Accept(d), AckUpload(d)]
  }

  /** The state after a whole upload of the row of `d`. */
  ghost function Uploaded(sys: System, s: Net, d: Device): Net
    requires WellFormed(sys, s) && d in sys.devices && s.rows[d].Some?
  {
    var e := s.rows[d].value.entry;
    Accepted(sys, s, d, e).(
      rows := s.rows[d := MarkedUnchanged(sys.cfg(d), s.rows[d], e.version, e.content.Tombstone?)])
  }

  /** The three steps of an upload on a connection on which nothing is under way. */
  lemma FreshSteps(sys: System, s: Net, d: Device) returns (s1: Net, s2: Net, s3: Net)
    requires WellFormed(sys, s) && d in sys.devices && s.rows[d].Some? && s.rows[d].value.changed
    requires s.up[d] == [] && s.active[d].None? && d !in s.acked
    ensures s1 == Apply(sys, s, StartUpload(d)) && WellFormed(sys, s1)
    ensures s2 == Apply(sys, s1, Accept(d)) && WellFormed(sys, s2)
    ensures s3 == Apply(sys, s2, AckUpload(d)) && s3 == Uploaded(sys, s, d) && WellFormed(sys, s3)
  {
    var e := s.rows[d].value.entry;
    var u := Upload(e.version, e.content.Tombstone?);
    s1 := Apply(sys, s, StartUpload(d));
    assert s.up[d] + [Message(e, true)] == [Message(e, true)];
    assert s1 == s.(active := s.active[d := Some(u)], up := s.up[d := [Message(e, true)]]);
    s2 := Apply(sys, s1, Accept(d));
    assert s1.up[d][1..] == [] && s1.up[d := []] == s.up;
    assert s2 == Accepted(sys, s, d, e).(active := s1.active, acked := s.acked + {d});
    s3 := Apply(sys, s2, AckUpload(d));
    assert s2.active[d := None] == s.active && s2.acked - {d} == s.acked;
  }

  lemma UploadOnFreshConnection(sys: System, s: Net, d: Device)
    requires WellFormed(sys, s) && d in sys.devices && s.rows[d].Some? && s.rows[d].value.changed
    requires s.up[d] == [] && s.active[d].None? && d !in s.acked
    ensures After(sys, s, Round(d)) == Uploaded(sys, s, d)
  {
    var s1, s2, s3 := FreshSteps(sys, s, d);
    AfterThree(sys, s, StartUpload(d), Accept(d), AckUpload(d), s1, s2, s3);
  }

  /** A new connection, on which nothing is under way. */
  lemma FreshConnection(sys: System, s: Net, d: Device) returns (run: seq<Action>, s': Net)
    requires WellFormed(sys, s) && d in sys.devices
    ensures NoLocalWrites(run) && s' == After(sys, s, run)
    ensures s' == s.(active := s'.active, up := s'.up, acked := s'.acked)
    ensures s'.up[d] == [] && s'.active[d].None? && d !in s'.acked
  {
    var s1 := Apply(sys, s, Reconnect(d));
    assert forall i :: 0 <= i < |s1.up[d]| ==> s1.up[d][i] == Dead(s.up[d][i]);
    var drops := DropAll(sys, s1, d, |s1.up[d]|);
    s' := s1.(up := s1.up[d := []]);
    run := [Reconnect(d)] + drops;
    AfterCons(sys, s, Reconnect(d), drops, s1);
    NoLocalWritesAppend([Reconnect(d)], drops);
  }

  /** Reconnecting and then uploading a changed row marks that row and distributes its entry;
      the rows of the other devices are untouched. */
  lemma UploadRound(sys: System, s: Net, d: Device) returns (run: seq<Action>, s': Net)
    requires WellFormed(sys, s) && d in sys.devices && s.rows[d].Some? && s.rows[d].value.changed
    ensures NoLocalWrites(run) && s' == After(sys, s, run) && s'.rows == Uploaded(sys, s, d).rows
    ensures s'.log == Uploaded(sys, s, d).log && s'.pending == Uploaded(sys, s, d).pending
  {
    var first, s1 := FreshConnection(sys, s, d);
    UploadOnFreshConnection(sys, s1, d);
    AfterAppend(sys, s, first, Round(d));
    NoLocalWritesAppend(first, Round(d));
    run, s' := first + Round(d), Uploaded(sys, s1, d);
  }

  // ---- everybody uploads

  ghost function ToUpload(sys: System, s: Net): set<Device>
    requires WellFormed(sys, s)
  {
    set d | d in sys.devices && s.rows[d].Some? && s.rows[d].value.changed
  }

  lemma TwoRuns(sys: System, s: Net, run: seq<Action>, s1: Net, more: seq<Action>, s': Net) returns (all: seq<Action>)
    requires WellFormed(sys, s) && s1 == After(sys, s, run) && s' == After(sys, s1, more)
    requires NoLocalWrites(run) && NoLocalWrites(more)
    ensures NoLocalWrites(all) && s' == After(sys, s, all)
  {
    AfterAppend(sys, s, run, more);
    NoLocalWritesAppend(run, more);
    all := run + more;
  }

  lemma UploadOne(sys: System, s: Net, d: Device) returns (run: seq<Action>, s': Net)
    requires PersistsDeleted(sys) && Inv(sys, s) && d in ToUpload(sys, s)
    ensures NoLocalWrites(run) && s' == After(sys, s, run) && Inv(sys, s') && ToUpload(sys, s') == ToUpload(sys, s) - {d}
  {
    run, s' := UploadRound(sys, s, d);
    RunKeepsInv(sys, s, run);
    OneFewer(sys, s, s', d);
  }

  lemma OneFewer(sys: System, s: Net, s': Net, d: Device)
    requires PersistsDeleted(sys) && WellFormed(sys, s) && WellFormed(sys, s') && d in ToUpload(sys, s)
    requires s'.rows == Uploaded(sys, s, d).rows
    ensures ToUpload(sys, s') == ToUpload(sys, s) - {d}
    ensures s'.rows == s.rows[d := Some(s.rows[d].value.(changed := false))]
  {}

  lemma {:induction false} UploadAll(sys: System, s: Net) returns (run: seq<Action>, s': Net)
    requires PersistsDeleted(sys) && Inv(sys, s)
    ensures NoLocalWrites(run) && s' == After(sys, s, run) && Inv(sys, s') && ToUpload(sys, s') == {}
    decreases ToUpload(sys, s)
  {
    if ToUpload(sys, s) == {} {
      run, s' := [], s;
    } else {
      var d :| d in ToUpload(sys, s);
      var first, s1 := UploadOne(sys, s, d);
      var rest;
      rest, s' := UploadAll(sys, s1);
      run := TwoRuns(sys, s, first, s1, rest, s');
    }
  }

  // ---- one device takes in everything

  ghost function WaitingFor(s: Net, m: Device): set<(Device, nat)> {
    set p | p in s.pending && p.0 == m
  }

  lemma TakeInOne(sys: System, s: Net, p: (Device, nat)) returns (run: seq<Action>, s': Net)
    requires PersistsDeleted(sys) && Inv(sys, s) && p in s.pending
    ensures NoLocalWrites(run) && s' == After(sys, s, run) && Inv(sys, s')
    ensures s'.pending == s.pending - {p} && s'.log == s.log && s'.rows == s.rows[p.0 := s'.rows[p.0]]
    ensures s'.rows[p.0] == Synced(sys.cfg(p.0), s.rows[p.0], s.log[p.1].entry)
  {
    run := Delivery(p);
    s' := After(sys, s, run);
    Delivered(sys, s, p);
    RunKeepsInv(sys, s, run);
  }

  lemma {:induction false} TakeInAll(sys: System, s: Net, m: Device) returns (run: seq<Action>, s': Net)
    requires PersistsDeleted(sys) && Inv(sys, s) && m in sys.devices && ToUpload(sys, s) <= {m}
    ensures NoLocalWrites(run) && s' == After(sys, s, run) && Inv(sys, s')
    ensures WaitingFor(s', m) == {} && ToUpload(sys, s') <= {m}
    decreases WaitingFor(s, m)
  {
    if WaitingFor(s, m) == {} {
      run, s' := [], s;
    } else {
      var p :| p in WaitingFor(s, m);
      var first, s1 := TakeInOne(sys, s, p);
      assert WaitingFor(s1, m) == WaitingFor(s, m) - {p};
      assert ToUpload(sys, s1) <= {m};
      var rest;
      rest, s' := TakeInAll(sys, s1, m);
      run := TwoRuns(sys, s, first, s1, rest, s');
    }
  }

  // ---- and has the last word

  /** `e` covers whatever there is. */
  ghost predicate Covering(sys: System, s: Net, e: Entry)
    requires WellFormed(sys, s)
  {
    && (forall x :: x in sys.devices && s.rows[x].Some? ==> Covers(e, s.rows[x].value.entry))
    && (forall id :: 0 <= id < |s.log| ==> Covers(e, s.log[id].entry))
  }

  /** The device has the entry, or can still take it in. */
  ghost predicate HasOrGets(s: Net, x: Device, e: Entry)
    requires x in s.rows
  {
    s.rows[x] == Some(Row(e, false))
    || exists id :: (x, id) in s.pending && 0 <= id < |s.log| && s.log[id].entry == e
  }

  ghost predicate Leads(sys: System, s: Net, e: Entry) {
    && WellFormed(sys, s) && IdsAreKnown(sys, s) && Covering(sys, s, e)
    && forall x :: x in sys.devices ==> HasOrGets(s, x, e)
  }

  /** What the row of `m` covers, once nothing waits for `m`. */
  lemma NothingWaiting(sys: System, s: Net, m: Device, id: nat)
    requires Inv(sys, s) && m in sys.devices && WaitingFor(s, m) == {} && id < |s.log|
    ensures RowCovers(s.rows[m], s.log[id].entry)
  {
    forall id' ensures (m, id') !in s.pending {
      assert (m, id') !in WaitingFor(s, m);
    }
    assert !Waits(s, m, id);
  }

  lemma LastWordCovers(sys: System, s: Net, m: Device)
    requires Inv(sys, s) && m in sys.devices && WaitingFor(s, m) == {} && ToUpload(sys, s) <= {m}
    ensures s.rows[m].Some? ==> Covering(sys, s, s.rows[m].value.entry)
    ensures s.rows[m].None? ==> s.pending == {} && forall x :: x in sys.devices ==> s.rows[x].None?
  {
    forall id | 0 <= id < |s.log| ensures RowCovers(s.rows[m], s.log[id].entry) {
      NothingWaiting(sys, s, m, id);
    }
    forall x | x in sys.devices && s.rows[x].Some? && x != m ensures RowCovers(s.rows[m], s.rows[x].value.entry) {
      assert x !in ToUpload(sys, s);
      assert OnServer(s, x, s.rows[x].value.entry);
    }
    if |s.log| > 0 { assert RowCovers(s.rows[m], s.log[0].entry); }
    assert |s.log| == 0 ==> s.pending == {};
  }

  /** An entry that is on the server and covers everything is pending wherever it is missing. */
  lemma ServedReaches(sys: System, s: Net, m: Device, e: Entry, x: Device)
    requires Inv(sys, s) && Covering(sys, s, e) && OnServer(s, m, e) && ToUpload(sys, s) == {}
    requires m in sys.devices && x in sys.devices
    ensures HasOrGets(s, x, e)
  {
    var id :| 0 <= id < |s.log| && s.log[id].entry == e && (s.log[id].source == m || (m, id) in s.merged);
    if RowCovers(s.rows[x], e) {
      assert x !in ToUpload(sys, s) && Covers(e, s.rows[x].value.entry);
      assert s.rows[x].value == Row(e, false);
    } else {
      assert x != s.log[id].source;
      assert Waits(s, x, id);
      var id' :| id <= id' < |s.log| && id < |s.log| && (x, id') in s.pending && s.log[id'].source == s.log[id].source;
      assert id == id' || Covers(s.log[id'].entry, s.log[id].entry);
      assert s.log[id'].entry == e;
    }
  }

  lemma ServedLeads(sys: System, s: Net, m: Device)
    requires Inv(sys, s) && m in sys.devices && WaitingFor(s, m) == {} && ToUpload(sys, s) == {} && s.rows[m].Some?
    ensures Leads(sys, s, s.rows[m].value.entry)
  {
    var e := s.rows[m].value.entry;
    LastWordCovers(sys, s, m);
    assert m !in ToUpload(sys, s);
    assert OnServer(s, m, e);
    forall x | x in sys.devices ensures HasOrGets(s, x, e) {
      ServedReaches(sys, s, m, e, x);
    }
  }

  lemma UploadLeads(sys: System, s: Net, m: Device) returns (run: seq<Action>, s': Net)
    requires PersistsDeleted(sys) && Inv(sys, s) && WaitingFor(s, m) == {} && ToUpload(sys, s) == {m}
    ensures NoLocalWrites(run) && s' == After(sys, s, run)
    ensures s.rows[m].Some? && Leads(sys, s', s.rows[m].value.entry)
  {
    assert m in ToUpload(sys, s);
    LastWordCovers(sys, s, m);
    run, s' := UploadRound(sys, s, m);
    RunKeepsIds(sys, s, run);
    OneFewer(sys, s, s', m);
    UploadedLeads(sys, s, s', m);
  }

  lemma RunKeepsIds(sys: System, s: Net, run: seq<Action>)
    requires PersistsDeleted(sys) && Inv(sys, s)
    ensures IdsAreKnown(sys, After(sys, s, run))
  {
    RunKeepsInv(sys, s, run);
  }

  lemma UploadedLeads(sys: System, s: Net, s': Net, m: Device)
    requires WellFormed(sys, s) && WellFormed(sys, s') && IdsAreKnown(sys, s') && m in sys.devices && s.rows[m].Some?
    requires Covering(sys, s, s.rows[m].value.entry)
    requires s'.rows == s.rows[m := Some(Row(s.rows[m].value.entry, false))]
    requires s'.log == Uploaded(sys, s, m).log && s'.pending == Uploaded(sys, s, m).pending
    ensures Leads(sys, s', s.rows[m].value.entry)
  {
    var e := s.rows[m].value.entry;
    forall x | x in sys.devices ensures HasOrGets(s', x, e) {
      if x != m { assert (x, |s.log|) in s'.pending && s'.log[|s.log|].entry == e; }
    }
  }

  // ---- everybody follows

  lemma Follows(cfg: Config, row: Option<Row>, e: Entry)
    requires cfg.persistDeleted && (row.Some? ==> Covers(e, row.value.entry))
    ensures Synced(cfg, row, e) == Some(Row(e, false))
  {}

  lemma Keeps(cfg: Config, e: Entry, older: Entry)
    requires cfg.persistDeleted && Covers(e, older)
    ensures Synced(cfg, Some(Row(e, false)), older) == Some(Row(e, false))
  {}

  ghost function Behind(sys: System, s: Net, e: Entry): set<Device>
    requires WellFormed(sys, s)
  {
    set x | x in sys.devices && s.rows[x] != Some(Row(e, false))
  }

  /** A delivery that leaves the device with `e`. */
  ghost predicate TakesEntry(s: Net, s': Net, e: Entry, p: (Device, nat)) {
    && p in s.pending && s'.log == s.log && s'.pending == s.pending - {p} && s'.sent == s.sent + {p}
    && s'.merged == s.merged + {p} && s'.rows == s.rows[p.0 := Some(Row(e, false))]
  }

  lemma TakeEntry(sys: System, s: Net, e: Entry, p: (Device, nat)) returns (run: seq<Action>, s': Net)
    requires WellFormed(sys, s) && p in s.pending && p.0 in sys.devices && p.1 < |s.log|
    requires Synced(sys.cfg(p.0), s.rows[p.0], s.log[p.1].entry) == Some(Row(e, false))
    ensures NoLocalWrites(run) && s' == After(sys, s, run) && TakesEntry(s, s', e, p)
  {
    run := Delivery(p);
    Delivered(sys, s, p);
    s' := After(sys, s, run);
  }

  lemma FollowOne(sys: System, s: Net, e: Entry, x: Device) returns (run: seq<Action>, s': Net)
    requires PersistsDeleted(sys) && Leads(sys, s, e) && x in Behind(sys, s, e)
    ensures NoLocalWrites(run) && s' == After(sys, s, run) && Leads(sys, s', e)
    ensures Behind(sys, s', e) == Behind(sys, s, e) - {x}
  {
    assert HasOrGets(s, x, e);
    var id :| (x, id) in s.pending && 0 <= id < |s.log| && s.log[id].entry == e;
    Follows(sys.cfg(x), s.rows[x], e);
    run, s' := TakeEntry(sys, s, e, (x, id));
    FollowedLeads(sys, s, s', e, (x, id));
  }

  lemma StillGets(s: Net, s': Net, e: Entry, p: (Device, nat), y: Device)
    requires TakesEntry(s, s', e, p) && y in s.rows && HasOrGets(s, y, e)
    ensures HasOrGets(s', y, e)
  {
    if y != p.0 && s.rows[y] != Some(Row(e, false)) {
      var id :| (y, id) in s.pending && 0 <= id < |s.log| && s.log[id].entry == e;
      assert (y, id) in s'.pending;
    }
  }

  lemma FollowedLeads(sys: System, s: Net, s': Net, e: Entry, p: (Device, nat))
    requires Leads(sys, s, e) && WellFormed(sys, s') && p.0 in sys.devices && p.1 < |s.log| && TakesEntry(s, s', e, p)
    ensures Leads(sys, s', e) && Behind(sys, s', e) == Behind(sys, s, e) - {p.0}
  {
    forall y | y in sys.devices ensures HasOrGets(s', y, e) {
      StillGets(s, s', e, p, y);
    }
  }

  lemma {:induction false} FollowAll(sys: System, s: Net, e: Entry) returns (run: seq<Action>, s': Net)
    requires PersistsDeleted(sys) && Leads(sys, s, e)
    ensures NoLocalWrites(run) && s' == After(sys, s, run) && Leads(sys, s', e) && Behind(sys, s', e) == {}
    decreases Behind(sys, s, e)
  {
    if Behind(sys, s, e) == {} {
      run, s' := [], s;
    } else {
      var x :| x in Behind(sys, s, e);
      var first, s1 := FollowOne(sys, s, e, x);
      var rest;
      rest, s' := FollowAll(sys, s1, e);
      run := TwoRuns(sys, s, first, s1, rest, s');
    }
  }

  /** What is still pending is older and changes nothing. */
  lemma DrainOne(sys: System, s: Net, e: Entry, p: (Device, nat)) returns (run: seq<Action>, s': Net)
    requires PersistsDeleted(sys) && Leads(sys, s, e) && Behind(sys, s, e) == {} && p in s.pending
    ensures NoLocalWrites(run) && s' == After(sys, s, run) && Leads(sys, s', e) && Behind(sys, s', e) == {}
    ensures s'.rows == s.rows && s'.pending == s.pending - {p}
  {
    assert p.0 !in Behind(sys, s, e);
    Keeps(sys.cfg(p.0), e, s.log[p.1].entry);
    run, s' := TakeEntry(sys, s, e, p);
    FollowedLeads(sys, s, s', e, p);
    assert s'.rows == s.rows;
  }

  lemma {:induction false} DrainAll(sys: System, s: Net, e: Entry) returns (run: seq<Action>, s': Net)
    requires PersistsDeleted(sys) && Leads(sys, s, e) && Behind(sys, s, e) == {}
    ensures NoLocalWrites(run) && s' == After(sys, s, run) && s'.rows == s.rows && s'.pending == {}
    decreases s.pending
  {
    if s.pending == {} {
      run, s' := [], s;
    } else {
      var p :| p in s.pending;
      var first, s1 := DrainOne(sys, s, e, p);
      var rest;
      rest, s' := DrainAll(sys, s1, e);
      run := TwoRuns(sys, s, first, s1, rest, s');
    }
  }

  ghost predicate Agreed(sys: System, s: Net)
    requires WellFormed(sys, s)
  {
    Quiet(sys, s) && Converged(sys, s)
  }

  lemma LeaderWins(sys: System, s: Net, e: Entry) returns (run: seq<Action>, s': Net)
    requires PersistsDeleted(sys) && Leads(sys, s, e)
    ensures NoLocalWrites(run) && s' == After(sys, s, run) && Agreed(sys, s')
  {
    var first, s1 := FollowAll(sys, s, e);
    var rest;
    rest, s' := DrainAll(sys, s1, e);
    run := TwoRuns(sys, s, first, s1, rest, s');
    forall x | x in sys.devices ensures s'.rows[x] == Some(Row(e, false)) {
      assert x !in Behind(sys, s1, e);
    }
  }

  lemma LastWord(sys: System, s: Net, m: Device) returns (run: seq<Action>, s': Net)
    requires PersistsDeleted(sys) && Inv(sys, s) && m in sys.devices && WaitingFor(s, m) == {} && ToUpload(sys, s) <= {m}
    ensures NoLocalWrites(run) && s' == After(sys, s, run) && Agreed(sys, s')
  {
    if s.rows[m].None? {
      LastWordCovers(sys, s, m);
      run, s' := [], s;
    } else if m in ToUpload(sys, s) {
      var first, s1 := UploadLeads(sys, s, m);
      var rest;
      rest, s' := LeaderWins(sys, s1, s.rows[m].value.entry);
      run := TwoRuns(sys, s, first, s1, rest, s');
    } else {
      assert ToUpload(sys, s) == {};
      ServedLeads(sys, s, m);
      run, s' := LeaderWins(sys, s, s.rows[m].value.entry);
    }
  }

  lemma Settle(sys: System, s: Net, m: Device) returns (run: seq<Action>, s': Net)
    requires PersistsDeleted(sys) && Inv(sys, s) && m in sys.devices
    ensures NoLocalWrites(run) && s' == After(sys, s, run) && Agreed(sys, s')
  {
    var uploads, s1 := UploadAll(sys, s);
    var taking, s2 := TakeInAll(sys, s1, m);
    var last;
    last, s' := LastWord(sys, s2, m);
    run := TwoRuns(sys, s1, taking, s2, last, s');
    run := TwoRuns(sys, s, uploads, s1, run, s');
  }

  // ---- the main results

  /** Some continuation without local writes ends at rest and in agreement. */
  ghost predicate CanAgree(sys: System, s: Net)
    requires WellFormed(sys, s)
  {
    exists run: seq<Action> :: NoLocalWrites(run) && Agreed(sys, After(sys, s, run))
  }

  /** Whatever happened before: all changed rows are uploaded, one device takes in what waits for
      it and uploads the result, and the others follow. */
  lemma AgreementStaysReachable(sys: System, before: seq<Action>)
    requires PersistsDeleted(sys)
    ensures CanAgree(sys, After(sys, Initial(sys), before))
  {
    var s := After(sys, Initial(sys), before);
    InitialInv(sys);
    RunKeepsInv(sys, Initial(sys), before);
    if m :| m in sys.devices {
      var run, s' := Settle(sys, s, m);
      assert Agreed(sys, After(sys, s, run));
    } else {
      NoDevices(sys, s);
    }
  }

  lemma NoDevices(sys: System, s: Net)
    requires WellFormed(sys, s) && sys.devices == {} && IdsAreKnown(sys, s)
    ensures CanAgree(sys, s)
  {
    var none: seq<Action> := [];
    assert NoLocalWrites(none) && Agreed(sys, After(sys, s, none));
  }
}
