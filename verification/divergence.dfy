/** Why convergence is stated for persisted deletions: without them a deleted row vanishes and
    its versions start over, and an account of two devices can come to rest in disagreement, for
    good as long as nobody writes. */
module Divergence {
  import opened Rows
  import opened Merge
  import opened Replication
  import opened Conflicts
  import opened Settling

  /** All runs that come to rest come to rest in agreement. */
  ghost predicate AlwaysConverges(sys: System) {
    forall run: seq<Action> ::
      Quiet(sys, After(sys, Initial(sys), run)) ==> Converged(sys, After(sys, Initial(sys), run))
  }

  /** Delivering one change to all devices that wait for it. */
  lemma {:induction false} DeliverAll(sys: System, s: Net, id: nat, todo: set<Device>) returns (run: seq<Action>, s': Net)
    requires WellFormed(sys, s) && id < |s.log| && todo <= sys.devices
    requires s.pending == set x | x in todo :: (x, id)
    ensures s' == After(sys, s, run) && forall step :: step in run ==> !step.Accept?
    ensures s' == s.(rows := s'.rows, pending := {}, sent := s.sent + s.pending, merged := s.merged + s.pending)
    ensures forall x :: x in sys.devices ==>
      s'.rows[x] == (if x in todo then Synced(sys.cfg(x), s.rows[x], s.log[id].entry) else s.rows[x])
    decreases todo
  {
    if todo == {} {
      run, s' := [], s;
    } else {
      var x :| x in todo;
      assert (x, id) in s.pending;
      Delivered(sys, s, (x, id));
      var s1 := After(sys, s, Delivery((x, id)));
      var rest;
      rest, s' := DeliverAll(sys, s1, id, todo - {x});
      AfterAppend(sys, s, Delivery((x, id)), rest);
      run := Delivery((x, id)) + rest;
    }
  }

  /** `d` has nothing on its way. */
  ghost predicate Idle(sys: System, s: Net, d: Device) {
    WellFormed(sys, s) && d in sys.devices && s.up[d] == [] && s.active[d].None? && d !in s.acked
  }

  /** Neither uploads nor downloads have been started since. */
  ghost predicate SameLines(s: Net, s': Net) {
    s'.up == s.up && s'.active == s.active && s'.sent == s.sent && s.log <= s'.log
  }

  /** A local write of an idle device followed by its upload. */
  lemma WriteAndUpload(sys: System, s: Net, a: Action, d: Device)
    requires Idle(sys, s, d) && IsLocalWrite(a) && a.d == d
    requires a.Remove? ==> s.rows[d].Some? && s.rows[d].value.entry.content.Live?
    ensures After(sys, s, [a] + Round(d)) == Uploaded(sys, Apply(sys, s, a), d)
    ensures Idle(sys, Uploaded(sys, Apply(sys, s, a), d), d) && SameLines(s, Uploaded(sys, Apply(sys, s, a), d))
  {
    var s1 := Apply(sys, s, a);
    AfterCons(sys, s, a, Round(d), s1);
    UploadOnFreshConnection(sys, s1, d);
  }

  /** After an upload the only changes of `d` that wait are the new one. */
  lemma OnlyNewestWaits(sys: System, s: Net, d: Device)
    requires WellFormed(sys, s) && d in sys.devices && s.rows[d].Some?
    requires forall p :: p in s.pending ==> p.1 < |s.log| && s.log[p.1].source == d
    ensures Uploaded(sys, s, d).pending == set x | x in sys.devices - {d} :: (x, |s.log|)
  {
    assert (set x | x in sys.devices && x != d :: (x, |s.log|)) == set x | x in sys.devices - {d} :: (x, |s.log|);
  }

  /** `d` saves twice and uploads the result. */
  lemma SavesTwice(sys: System, d: Device, data: Json) returns (run: seq<Action>, s: Net)
    requires d in sys.devices
    ensures s == After(sys, Initial(sys), run) && Idle(sys, s, d) && OnlyWaits(sys, s, d, 0)
    ensures s.rows == Initial(sys).rows[d := Some(Row(Entry(2, Live(data)), false))]
    ensures s.log[0].entry == Entry(2, Live(data)) && SameLines(Initial(sys), s)
  {
    var s0 := Initial(sys);
    var s1 := Apply(sys, s0, Save(d, data));
    WriteAndUpload(sys, s1, Save(d, data), d);
    var s2 := Apply(sys, s1, Save(d, data));
    OnlyNewestWaits(sys, s2, d);
    var upload := [Save(d, data)] + Round(d);
    AfterCons(sys, s0, Save(d, data), upload, s1);
    run, s := [Save(d, data)] + upload, Uploaded(sys, s2, d);
  }

  /** `x` takes the change in, but its acknowledgement is not heard. */
  lemma TakesIn(sys: System, s: Net, d: Device, x: Device) returns (run: seq<Action>, s': Net)
    requires Idle(sys, s, d) && OnlyWaits(sys, s, d, 0) && x in sys.devices && d != x && s.rows[x] == None
    requires s.log[0].entry.content.Live?
    ensures s' == After(sys, s, run) && Idle(sys, s', d) && OnlyWaits(sys, s', d, 0)
    ensures s'.rows == s.rows[x := Some(Row(s.log[0].entry, false))] && s'.log == s.log
    ensures s'.up == s.up && s'.active == s.active && s'.sent == s.sent + {(x, 0)}
  {
    assert (x, 0) in s.pending;
    var s1 := Apply(sys, s, Send(x, 0));
    s' := Apply(sys, s1, MergeChange(x, 0));
    AfterCons(sys, s1, MergeChange(x, 0), [], s');
    AfterCons(sys, s, Send(x, 0), [MergeChange(x, 0)] + [], s1);
    run := [Send(x, 0)] + ([MergeChange(x, 0)] + []);
  }

  /** The first part of the diverging run: `d` saves twice, and `x` takes the result in. */
  lemma FirstPart(sys: System, d: Device, x: Device, data: Json) returns (run: seq<Action>, s: Net)
    requires d in sys.devices && x in sys.devices && d != x
    ensures s == After(sys, Initial(sys), run) && Idle(sys, s, d) && OnlyWaits(sys, s, d, 0)
    ensures s.rows == Initial(sys).rows[d := Some(Row(Entry(2, Live(data)), false))]
                                       [x := Some(Row(Entry(2, Live(data)), false))]
    ensures s.up == Initial(sys).up && s.active == Initial(sys).active && s.sent == {(x, 0)}
    ensures s.log[0].entry == Entry(2, Live(data))
  {
    var saves, s1 := SavesTwice(sys, d, data);
    var takes;
    takes, s := TakesIn(sys, s1, d, x);
    AfterAppend(sys, Initial(sys), saves, takes);
    run := saves + takes;
  }

  /** Every waiting change is the one of id `id`, and it is from `d`. */
  ghost predicate OnlyWaits(sys: System, s: Net, d: Device, id: nat) {
    |s.log| == id + 1 && s.log[id].source == d && s.pending == set y | y in sys.devices - {d} :: (y, id)
  }

  /** The second part: `d` deletes the object and forgets about it once that is acknowledged. */
  lemma DeleteAndForget(sys: System, s: Net, d: Device, id: nat)
    requires Idle(sys, s, d) && !sys.cfg(d).persistDeleted && OnlyWaits(sys, s, d, id)
    requires s.rows[d].Some? && s.rows[d].value.entry.content.Live?
    ensures
      var r := After(sys, s, [Remove(d)] + Round(d));
      Idle(sys, r, d) && OnlyWaits(sys, r, d, id + 1) && r.rows == s.rows[d := None] && SameLines(s, r)
  {
    WriteAndUpload(sys, s, Remove(d), d);
    OnlyNewestWaits(sys, Apply(sys, s, Remove(d)), d);
  }

  /** The third part: `d` saves again; the new object starts over at version 1 and hides the
      deletion from everyone. */
  lemma SaveAnew(sys: System, s: Net, d: Device, data: Json, id: nat)
    requires Idle(sys, s, d) && OnlyWaits(sys, s, d, id) && s.rows[d] == None
    ensures
      var r := After(sys, s, [Save(d, data)] + Round(d));
      && OnlyWaits(sys, r, d, id + 1) && r.log[id + 1].entry == Entry(1, Live(data))
      && r.rows == s.rows[d := Some(Row(Entry(1, Live(data)), false))] && SameLines(s, r)
  {
    WriteAndUpload(sys, s, Save(d, data), d);
    OnlyNewestWaits(sys, Apply(sys, s, Save(d, data)), d);
  }

  function DeleteAndSave(d: Device, data: Json): seq<Action> {
    ([Remove(d)] + Round(d)) + ([Save(d, data)] + Round(d))
  }

  lemma DeletedAndSaved(sys: System, s: Net, d: Device, data: Json) returns (r: Net)
    requires Idle(sys, s, d) && !sys.cfg(d).persistDeleted && OnlyWaits(sys, s, d, 0)
    requires s.rows[d].Some? && s.rows[d].value.entry.content.Live?
    ensures r == After(sys, s, DeleteAndSave(d, data)) && WellFormed(sys, r)
    ensures OnlyWaits(sys, r, d, 2) && r.log[2].entry == Entry(1, Live(data))
    ensures r.rows == s.rows[d := Some(Row(Entry(1, Live(data)), false))] && SameLines(s, r)
  {
    DeleteAndForget(sys, s, d, 0);
    var s1 := After(sys, s, [Remove(d)] + Round(d));
    SaveAnew(sys, s1, d, data, 1);
    r := After(sys, s1, [Save(d, data)] + Round(d));
    AfterAppend(sys, s, [Remove(d)] + Round(d), [Save(d, data)] + Round(d));
    assert s.rows[d := None][d := Some(Row(Entry(1, Live(data)), false))]
        == s.rows[d := Some(Row(Entry(1, Live(data)), false))];
  }

  /** Nothing is on its way, and merging once more what was ever sent changes nothing. */
  ghost predicate Frozen(sys: System, s: Net) {
    && WellFormed(sys, s) && Quiet(sys, s)
    && (forall x :: x in sys.devices ==> s.up[x] == [] && s.active[x].None?)
    && (forall p :: p in s.sent && p.0 in sys.devices && p.1 < |s.log| ==>
          Synced(sys.cfg(p.0), s.rows[p.0], s.log[p.1].entry) == s.rows[p.0])
  }

  lemma FrozenStep(sys: System, s: Net, a: Action) returns (s': Net)
    requires Frozen(sys, s) && !IsLocalWrite(a)
    ensures s' == Apply(sys, s, a) && Frozen(sys, s') && s'.rows == s.rows
  {
    s' := Apply(sys, s, a);
    if a.MergeChange? && Enabled(sys, s, a) {
      assert (a.d, a.id) in s.sent;
      assert s'.rows == s.rows;
    }
    assert s'.rows == s.rows;
  }

  lemma {:induction false} FrozenStays(sys: System, s: Net, run: seq<Action>)
    requires Frozen(sys, s) && NoLocalWrites(run)
    ensures After(sys, s, run).rows == s.rows
    decreases |run|
  {
    if run != [] {
      var s1 := FrozenStep(sys, s, run[0]);
      FrozenStays(sys, s1, run[1..]);
    }
  }

  lemma FrozenCannotAgree(sys: System, s: Net)
    requires Frozen(sys, s) && !Converged(sys, s)
    ensures !CanAgree(sys, s)
  {
    forall run: seq<Action> | NoLocalWrites(run) ensures !Agreed(sys, After(sys, s, run)) {
      FrozenStays(sys, s, run);
    }
  }

  /** The change that hides the deletion reaches everybody. */
  lemma LastDelivery(sys: System, s: Net, d: Device, x: Device, e: Entry, f: Entry) returns (run: seq<Action>, s': Net)
    requires WellFormed(sys, s) && OnlyWaits(sys, s, d, 2) && d in sys.devices && x in sys.devices && d != x
    requires s.log[2].entry == f && f.version < e.version && f.content.Live?
    requires s.rows[x] == Some(Row(e, false)) && s.rows[d] == Some(Row(f, false))
    requires forall y :: y in sys.devices && y != d && y != x ==> s.rows[y] == None
    ensures s' == After(sys, s, run) && WellFormed(sys, s') && s'.pending == {}
    ensures s'.up == s.up && s'.active == s.active && s'.log == s.log
    ensures forall p :: p in s'.sent ==> p.1 == 2 || p in s.sent
    ensures forall y :: y in sys.devices ==> s'.rows[y] == Some(Row(if y == x then e else f, false))
  {
    run, s' := DeliverAll(sys, s, 2, sys.devices - {d});
    LastRows(sys, s, s', d, x, e, f);
  }

  /** The last part: it changes nothing for `x`, which has a higher version. */
  lemma LastPart(sys: System, s: Net, d: Device, x: Device, e: Entry) returns (run: seq<Action>, s': Net)
    requires WellFormed(sys, s) && OnlyWaits(sys, s, d, 2) && d in sys.devices && x in sys.devices && d != x
    requires s.rows[x] == Some(Row(e, false)) && s.log[2].entry.version < e.version
    requires s.rows[d] == Some(Row(s.log[2].entry, false))
    requires forall y :: y in sys.devices && y != d && y != x ==> s.rows[y] == None
    requires s.log[2].entry.content.Live? && s.log[0].entry == e && e.content.Live?
    requires s.up == Initial(sys).up && s.active == Initial(sys).active && s.sent == {(x, 0)}
    ensures s' == After(sys, s, run) && Frozen(sys, s') && !Converged(sys, s')
  {
    run, s' := LastDelivery(sys, s, d, x, e, s.log[2].entry);
    LastIsFrozen(sys, s', d, x, e, s.log[2].entry);
  }

  lemma LastMerge(cfg: Config, e: Entry, f: Entry)
    requires f.version < e.version && f.content.Live?
    ensures Synced(cfg, Some(Row(e, false)), f) == Some(Row(e, false)) && Synced(cfg, None, f) == Some(Row(f, false))
  {}

  lemma LastRows(sys: System, s: Net, s': Net, d: Device, x: Device, e: Entry, f: Entry)
    requires WellFormed(sys, s) && WellFormed(sys, s') && d in sys.devices && x in sys.devices && d != x
    requires s.rows[d] == Some(Row(f, false)) && s.rows[x] == Some(Row(e, false)) && f.version < e.version && f.content.Live?
    requires forall y :: y in sys.devices && y != d && y != x ==> s.rows[y] == None
    requires forall y :: y in sys.devices ==> s'.rows[y] == if y != d then Synced(sys.cfg(y), s.rows[y], f) else s.rows[y]
    ensures forall y :: y in sys.devices ==> s'.rows[y] == Some(Row(if y == x then e else f, false))
  {
    forall y | y in sys.devices ensures s'.rows[y] == Some(Row(if y == x then e else f, false)) {
      LastMerge(sys.cfg(y), e, f);
    }
  }

  lemma LastIsFrozen(sys: System, s: Net, d: Device, x: Device, e: Entry, f: Entry)
    requires d in sys.devices && x in sys.devices && d != x
    requires WellFormed(sys, s) && s.pending == {} && |s.log| == 3 && s.log[0].entry == e && s.log[2].entry == f
    requires f.version < e.version && f.content.Live? && e.content.Live?
    requires forall y :: y in sys.devices ==> s.rows[y] == Some(Row(if y == x then e else f, false))
    requires s.up == Initial(sys).up && s.active == Initial(sys).active
    requires forall p :: p in s.sent ==> p.1 == 2 || p == (x, 0)
    ensures Frozen(sys, s) && !Converged(sys, s)
  {
    assert EntryOf(s.rows[d]) == Some(f) && EntryOf(s.rows[x]) == Some(e);
  }

  /** Two devices of which one forgets its deletions can come to rest in disagreement, and then
      nothing but a local write can change that. */
  lemma ForgottenDeletionDiverges(sys: System, d: Device, x: Device) returns (run: seq<Action>, s: Net)
    requires d in sys.devices && x in sys.devices && d != x && !sys.cfg(d).persistDeleted
    ensures s == After(sys, Initial(sys), run) && Quiet(sys, s) && !Converged(sys, s) && !CanAgree(sys, s)
  {
    var first, s1 := FirstPart(sys, d, x, "a");
    var s2 := DeletedAndSaved(sys, s1, d, "b");
    var last;
    last, s := LastPart(sys, s2, d, x, Entry(2, Live("a")));
    AfterAppend(sys, Initial(sys), first, DeleteAndSave(d, "b"));
    AfterAppend(sys, Initial(sys), first + DeleteAndSave(d, "b"), last);
    run := (first + DeleteAndSave(d, "b")) + last;
    FrozenCannotAgree(sys, s);
  }

  // ---- exactly when

  ghost predicate SingleDevice(sys: System) {
    forall x, y :: x in sys.devices && y in sys.devices ==> x == y
  }

  /** With a single device there is nobody to disagree with. */
  lemma AloneAgrees(sys: System, run: seq<Action>)
    requires SingleDevice(sys)
    ensures Converged(sys, After(sys, Initial(sys), run)) && After(sys, Initial(sys), run).pending == {}
  {
    AlonePending(sys, Initial(sys), run);
  }

  lemma {:induction false} AlonePending(sys: System, s: Net, run: seq<Action>)
    requires SingleDevice(sys) && WellFormed(sys, s) && s.pending == {}
    ensures After(sys, s, run).pending == {}
    decreases |run|
  {
    if run != [] {
      AlonePendingStep(sys, s, run[0]);
      AlonePending(sys, Apply(sys, s, run[0]), run[1..]);
    }
  }

  lemma AlonePendingStep(sys: System, s: Net, a: Action)
    requires SingleDevice(sys) && WellFormed(sys, s) && s.pending == {}
    ensures Apply(sys, s, a).pending == {} && WellFormed(sys, Apply(sys, s, a))
  {
    if a.Accept? && Enabled(sys, s, a) {
      assert (set x | x in sys.devices && x != a.d :: (x, |s.log|)) == {};
    }
  }

  lemma AloneCanAgree(sys: System, before: seq<Action>)
    requires SingleDevice(sys)
    ensures CanAgree(sys, After(sys, Initial(sys), before))
  {
    var s := After(sys, Initial(sys), before);
    if d :| d in ToUpload(sys, s) {
      var run, s' := UploadRound(sys, s, d);
      AfterAppend(sys, Initial(sys), before, run);
      AloneAgrees(sys, before + run);
      assert Agreed(sys, After(sys, s, run));
    } else {
      var none: seq<Action> := [];
      AloneAgrees(sys, before);
      forall d | d in sys.devices && s.rows[d].Some? ensures !s.rows[d].value.changed {
        assert d !in ToUpload(sys, s);
      }
      assert NoLocalWrites(none) && Agreed(sys, After(sys, s, none));
    }
  }

  /** An account always converges exactly when all of its devices persist deletions, or it has
      only one device. */
  lemma AlwaysConvergesIff(sys: System)
    ensures AlwaysConverges(sys) <==> PersistsDeleted(sys) || SingleDevice(sys)
  {
    if PersistsDeleted(sys) {
      forall run: seq<Action> | Quiet(sys, After(sys, Initial(sys), run))
        ensures Converged(sys, After(sys, Initial(sys), run))
      {
        Convergence(sys, run);
      }
    } else if x, y :| x in sys.devices && y in sys.devices && x != y {
      var d :| d in sys.devices && !sys.cfg(d).persistDeleted;
      var run, s := ForgottenDeletionDiverges(sys, d, if x == d then y else x);
    }
  }

  /** And exactly then agreement stays reachable whatever happens. */
  lemma AlwaysCanAgreeIff(sys: System)
    ensures (forall before: seq<Action> :: CanAgree(sys, After(sys, Initial(sys), before))) <==>
            PersistsDeleted(sys) || SingleDevice(sys)
  {
    if PersistsDeleted(sys) || SingleDevice(sys) {
      forall before: seq<Action> ensures CanAgree(sys, After(sys, Initial(sys), before)) {
        if PersistsDeleted(sys) {
          AgreementStaysReachable(sys, before);
        } else {
          AloneCanAgree(sys, before);
        }
      }
    } else {
      var x, y :| x in sys.devices && y in sys.devices && x != y;
      var d :| d in sys.devices && !sys.cfg(d).persistDeleted;
      var run, s := ForgottenDeletionDiverges(sys, d, if x == d then y else x);
    }
  }
}
