/** When conflict rounds do not end: two devices that settle a conflict each in its own way can
    push the version of an object up for ever without a local write, and a deletion that is not
    persisted can return from far above. */
module Standoffs {
  import opened Rows
  import opened Merge
  import opened Replication
  import opened Conflicts
  import opened Settling
  import opened Divergence

  ghost predicate Capped(sys: System, s: Net, cap: int)
    requires WellFormed(sys, s)
  {
    forall d :: d in sys.devices && s.rows[d].Some? ==> s.rows[d].value.entry.version <= cap
  }

  /** From any reachable state with n devices and highest version V, no run without local writes
      takes a version above V + n - 1. */
  ghost predicate RoundsEnd(sys: System) {
    forall before: seq<Action>, highest: nat, run: seq<Action> ::
      IsHighest(sys, After(sys, Initial(sys), before), highest) && NoLocalWrites(run) ==>
        Capped(sys, After(sys, After(sys, Initial(sys), before), run), highest + |sys.devices| - 1)
  }

  /** A run beyond the bound. */
  ghost predicate Exceeds(sys: System, s: Net, run: seq<Action>, highest: nat, x: Device) {
    && WellFormed(sys, s) && IsHighest(sys, s, highest) && NoLocalWrites(run) && x in sys.devices
    && var row := After(sys, s, run).rows[x];
       row.Some? && row.value.entry.version >= highest + |sys.devices|
  }

  lemma ExceedsBound(sys: System, before: seq<Action>, run: seq<Action>, highest: nat, x: Device)
    requires Exceeds(sys, After(sys, Initial(sys), before), run, highest, x)
    ensures !RoundsEnd(sys)
  {
    assert !Capped(sys, After(sys, After(sys, Initial(sys), before), run), highest + |sys.devices| - 1);
  }

  // ---- two uploads that cross

  /** `d` and `e` face each other: two contents of one version, both still to be uploaded. */
  ghost predicate Facing(sys: System, s: Net, d: Device, e: Device, v: nat, a: Content, b: Content) {
    && d != e && Idle(sys, s, d) && Idle(sys, s, e)
    && s.rows[d] == Some(Row(Entry(v, a), true)) && s.rows[e] == Some(Row(Entry(v, b), true))
  }

  /** An upload of the entry of `d`: it waits for `x`, and what waited of others still does. */
  lemma OneUploads(sys: System, s: Net, d: Device, entry: Entry, x: Device) returns (s': Net)
    requires Idle(sys, s, d) && Idle(sys, s, x) && x != d
    requires s.rows[d] == Some(Row(entry, true)) && sys.cfg(d).persistDeleted
    ensures s' == After(sys, s, Round(d)) && NoLocalWrites(Round(d)) && Idle(sys, s', d) && Idle(sys, s', x)
    ensures s'.rows[d] == Some(Row(entry, false)) && s'.rows[x] == s.rows[x] && s'.log == s.log + [Change(d, entry)]
    ensures (x, |s.log|) in s'.pending
    ensures forall i :: 0 <= i < |s.log| && s.log[i].source == x && (d, i) in s.pending ==> (d, i) in s'.pending
  {
    UploadOnFreshConnection(sys, s, d);
    s' := Uploaded(sys, s, d);
  }

  lemma BothUpload(sys: System, s: Net, d: Device, e: Device, v: nat, a: Content, b: Content) returns (run: seq<Action>, s': Net)
    requires Facing(sys, s, d, e, v, a, b) && sys.cfg(d).persistDeleted && sys.cfg(e).persistDeleted
    ensures NoLocalWrites(run) && s' == After(sys, s, run) && Idle(sys, s', d) && Idle(sys, s', e)
    ensures s'.rows[d] == Some(Row(Entry(v, a), false)) && s'.rows[e] == Some(Row(Entry(v, b), false))
    ensures s'.log == s.log + [Change(d, Entry(v, a)), Change(e, Entry(v, b))]
    ensures (e, |s.log|) in s'.pending && (d, |s.log| + 1) in s'.pending
  {
    var s1 := OneUploads(sys, s, d, Entry(v, a), e);
    s' := OneUploads(sys, s1, e, Entry(v, b), d);
    assert s1.log[|s.log|].source == d;
    run := TwoRuns(sys, s, Round(d), s1, Round(e), s');
  }

  lemma BothTakeIn(sys: System, s: Net, d: Device, e: Device, i: nat, j: nat) returns (run: seq<Action>, s': Net)
    requires Idle(sys, s, d) && Idle(sys, s, e) && d != e
    requires (d, i) in s.pending && (e, j) in s.pending && i < |s.log| && j < |s.log|
    ensures NoLocalWrites(run) && s' == After(sys, s, run) && Idle(sys, s', d) && Idle(sys, s', e)
    ensures s'.rows[d] == Synced(sys.cfg(d), s.rows[d], s.log[i].entry)
    ensures s'.rows[e] == Synced(sys.cfg(e), s.rows[e], s.log[j].entry)
  {
    Delivered(sys, s, (d, i));
    var s1 := After(sys, s, Delivery((d, i)));
    Delivered(sys, s1, (e, j));
    s' := After(sys, s1, Delivery((e, j)));
    run := TwoRuns(sys, s, Delivery((d, i)), s1, Delivery((e, j)), s');
  }

  lemma SettledAlone(cfg: Config, v: nat, a: Content, b: Content)
    requires a != b
    ensures Synced(cfg, Some(Row(Entry(v, a), false)), Entry(v, b)) == Some(Row(Entry(v + 1, Winner(cfg, a, b)), true))
  {}

  /** A round of the conflict: both upload before either takes in what the other has, and each
      settles the conflict on its own. */
  lemma Cross(sys: System, s: Net, d: Device, e: Device, v: nat, a: Content, b: Content) returns (run: seq<Action>, s': Net)
    requires PersistsDeleted(sys) && Facing(sys, s, d, e, v, a, b) && a != b
    ensures NoLocalWrites(run) && s' == After(sys, s, run)
    ensures Facing(sys, s', d, e, v + 1, Winner(sys.cfg(d), a, b), Winner(sys.cfg(e), b, a))
  {
    var first, s1 := BothUpload(sys, s, d, e, v, a, b);
    var rest;
    rest, s' := BothTakeIn(sys, s1, d, e, |s.log| + 1, |s.log|);
    SettledAlone(sys.cfg(d), v, a, b);
    SettledAlone(sys.cfg(e), v, b, a);
    run := TwoRuns(sys, s, first, s1, rest, s');
  }

  // ---- how two devices come to face each other

  /** Two writes that leave the content under version 2. */
  function Writes(d: Device, c: Content): seq<Action> {
    [Save(d, ""), if c.Tombstone? then Remove(d) else Save(d, c.data)]
  }

  lemma Written(sys: System, s: Net, d: Device, c: Content)
    requires WellFormed(sys, s) && d in sys.devices && s.rows[d] == None
    ensures After(sys, s, Writes(d, c)) == s.(rows := s.rows[d := Some(Row(Entry(2, c), true))])
  {
    var s1 := Apply(sys, s, Save(d, ""));
    var last := Writes(d, c)[1];
    AfterCons(sys, s1, last, [], Apply(sys, s1, last));
    AfterCons(sys, s, Save(d, ""), [last] + [], s1);
    assert Writes(d, c) == [Save(d, "")] + ([last] + []);
  }

  lemma Face(sys: System, d: Device, e: Device, a: Content, b: Content) returns (before: seq<Action>, s: Net)
    requires d in sys.devices && e in sys.devices && d != e
    ensures s == After(sys, Initial(sys), before) && Facing(sys, s, d, e, 2, a, b) && IsHighest(sys, s, 2)
  {
    var s0 := Initial(sys);
    Written(sys, s0, d, a);
    var s1 := After(sys, s0, Writes(d, a));
    Written(sys, s1, e, b);
    s := After(sys, s1, Writes(e, b));
    AfterAppend(sys, s0, Writes(d, a), Writes(e, b));
    before := Writes(d, a) + Writes(e, b);
  }

  // ---- a standoff

  /** Each of the two devices keeps its own content against that of the other. */
  ghost predicate Standoff(sys: System, d: Device, e: Device, a: Content, b: Content) {
    && d in sys.devices && e in sys.devices && d != e && a != b
    && Winner(sys.cfg(d), a, b) == a && Winner(sys.cfg(e), b, a) == b
  }

  lemma Hold(sys: System, s: Net, d: Device, e: Device, v: nat, a: Content, b: Content) returns (run: seq<Action>, s': Net)
    requires PersistsDeleted(sys) && Standoff(sys, d, e, a, b) && Facing(sys, s, d, e, v, a, b)
    ensures NoLocalWrites(run) && s' == After(sys, s, run) && Facing(sys, s', d, e, v + 1, a, b)
  {
    run, s' := Cross(sys, s, d, e, v, a, b);
  }

  lemma {:induction false} Climb(sys: System, s: Net, d: Device, e: Device, v: nat, a: Content, b: Content, n: nat)
      returns (run: seq<Action>, s': Net)
    requires PersistsDeleted(sys) && Standoff(sys, d, e, a, b) && Facing(sys, s, d, e, v, a, b)
    ensures NoLocalWrites(run) && s' == After(sys, s, run) && Facing(sys, s', d, e, v + n, a, b)
    decreases n
  {
    if n == 0 {
      run, s' := [], s;
    } else {
      var first, s1 := Climb(sys, s, d, e, v, a, b, n - 1);
      var rest;
      rest, s' := Hold(sys, s1, d, e, v + n - 1, a, b);
      run := TwoRuns(sys, s, first, s1, rest, s');
    }
  }

  /** A reachable state from which the version can be pushed beyond any number. */
  lemma StandoffClimbs(sys: System, d: Device, e: Device, a: Content, b: Content, n: nat)
    requires PersistsDeleted(sys) && Standoff(sys, d, e, a, b)
    ensures exists before, run ::
      && IsHighest(sys, After(sys, Initial(sys), before), 2) && NoLocalWrites(run)
      && AtVersion(After(sys, After(sys, Initial(sys), before), run).rows[d], 2 + n)
  {
    var before, s := Face(sys, d, e, a, b);
    var run, s' := Climb(sys, s, d, e, 2, a, b, n);
    assert AtVersion(After(sys, After(sys, Initial(sys), before), run).rows[d], 2 + n);
  }

  lemma StandoffBreaksBound(sys: System, d: Device, e: Device, a: Content, b: Content)
    requires PersistsDeleted(sys) && Standoff(sys, d, e, a, b)
    ensures !RoundsEnd(sys)
  {
    var before, s := Face(sys, d, e, a, b);
    var run, s' := Climb(sys, s, d, e, 2, a, b, |sys.devices|);
    ExceedsBound(sys, before, run, 2, d);
  }

  /** Two policies. */
  lemma PoliciesStandOff(sys: System, d: Device, e: Device, data: Json)
    requires d in sys.devices && e in sys.devices && NoResolver(sys.cfg(d)) && NoResolver(sys.cfg(e))
    requires sys.cfg(d).policy == PreferChanged && sys.cfg(e).policy == PreferDeleted
    ensures Standoff(sys, d, e, Live(data), Tombstone)
  {}

  /** Resolvers that answer the local side. */
  lemma ResolversStandOff(sys: System, d: Device, e: Device, x: Json, y: Json)
    requires d in sys.devices && e in sys.devices && d != e && x != y
    requires sys.cfg(d).resolver(x, y) == Some(x) && sys.cfg(e).resolver(y, x) == Some(y)
    ensures Standoff(sys, d, e, Live(x), Live(y))
  {}

  // ---- a deletion that is not persisted

  function Saves(d: Device, n: nat): seq<Action> {
    seq(n, i => Save(d, ""))
  }

  lemma {:induction false} SavedOften(sys: System, s: Net, d: Device, v: nat, n: nat)
    requires WellFormed(sys, s) && d in sys.devices && s.rows[d] == Some(Row(Entry(v, Live("")), true))
    ensures After(sys, s, Saves(d, n)) == s.(rows := s.rows[d := Some(Row(Entry(v + n, Live("")), true))])
    decreases n
  {
    if n == 0 {
      assert s.rows[d := s.rows[d]] == s.rows;
    } else {
      var s1 := Apply(sys, s, Save(d, ""));
      SavedOften(sys, s1, d, v + 1, n - 1);
      AfterCons(sys, s, Save(d, ""), Saves(d, n - 1), s1);
      assert Saves(d, n) == [Save(d, "")] + Saves(d, n - 1);
    }
  }

  /** `d` saves `n` times and deletes the object, uploads that and forgets about it. */
  lemma ForgetsHigh(sys: System, d: Device, n: nat) returns (run: seq<Action>, s: Net)
    requires d in sys.devices && !sys.cfg(d).persistDeleted && n > 0
    ensures s == After(sys, Initial(sys), run) && WellFormed(sys, s) && s.rows == Initial(sys).rows
    ensures |s.log| == 1 && s.log[0] == Change(d, Entry(n + 1, Tombstone))
    ensures forall x :: x in sys.devices && x != d ==> (x, 0) in s.pending
  {
    var s0 := Initial(sys);
    var s1 := Apply(sys, s0, Save(d, ""));
    SavedOften(sys, s1, d, 1, n - 1);
    var s2 := After(sys, s1, Saves(d, n - 1));
    AfterCons(sys, s0, Save(d, ""), Saves(d, n - 1), s1);
    WriteAndUpload(sys, s2, Remove(d), d);
    s := Uploaded(sys, Apply(sys, s2, Remove(d)), d);
    AfterAppend(sys, s0, [Save(d, "")] + Saves(d, n - 1), [Remove(d)] + Round(d));
    run := ([Save(d, "")] + Saves(d, n - 1)) + ([Remove(d)] + Round(d));
    assert s.rows == s0.rows;
  }

  lemma ReturnsFromAbove(sys: System, s: Net, d: Device, x: Device, v: nat) returns (write: seq<Action>, run: seq<Action>)
    requires WellFormed(sys, s) && s.rows == Initial(sys).rows && |s.log| == 1 && s.log[0] == Change(d, Entry(v, Tombstone))
    requires d != x && x in sys.devices && (x, 0) in s.pending && v >= 1 + |sys.devices| && |sys.devices| >= 1
    ensures Exceeds(sys, After(sys, s, write), run, 1, x)
  {
    write, run := [Save(x, "")], Delivery((x, 0));
    var s1 := Apply(sys, s, Save(x, ""));
    AfterCons(sys, s, Save(x, ""), [], s1);
    assert write + [] == write;
    Delivered(sys, s1, (x, 0));
  }

  /** A forgotten deletion comes back from above the bound. */
  lemma ForgottenBreaksBound(sys: System, d: Device, x: Device)
    requires d in sys.devices && x in sys.devices && d != x && !sys.cfg(d).persistDeleted
    ensures !RoundsEnd(sys)
  {
    assert |sys.devices - {d}| == |sys.devices| - 1;
    var first, s := ForgetsHigh(sys, d, |sys.devices|);
    var write, run := ReturnsFromAbove(sys, s, d, x, |sys.devices| + 1);
    AfterAppend(sys, Initial(sys), first, write);
    ExceedsBound(sys, first + write, run, 1, x);
  }

  // ---- a single device

  lemma AloneStep(sys: System, s: Net, a: Action, highest: nat)
    requires SingleDevice(sys) && WellFormed(sys, s) && s.pending == {} && s.sent == {}
    ensures WellFormed(sys, Apply(sys, s, a)) && Apply(sys, s, a).pending == {} && Apply(sys, s, a).sent == {}
    ensures IsHighest(sys, s, highest) && !IsLocalWrite(a) ==> IsHighest(sys, Apply(sys, s, a), highest)
  {
    AlonePendingStep(sys, s, a);
  }

  lemma {:induction false} AloneRun(sys: System, s: Net, run: seq<Action>, highest: nat)
    requires SingleDevice(sys) && WellFormed(sys, s) && s.pending == {} && s.sent == {}
    ensures After(sys, s, run).pending == {} && After(sys, s, run).sent == {}
    ensures IsHighest(sys, s, highest) && NoLocalWrites(run) ==> IsHighest(sys, After(sys, s, run), highest)
    decreases |run|
  {
    if run != [] {
      AloneStep(sys, s, run[0], highest);
      AloneRun(sys, Apply(sys, s, run[0]), run[1..], highest);
    }
  }

  lemma AloneRoundsEnd(sys: System)
    requires SingleDevice(sys)
    ensures RoundsEnd(sys)
  {
    forall before: seq<Action>, highest: nat, run: seq<Action> |
        IsHighest(sys, After(sys, Initial(sys), before), highest) && NoLocalWrites(run)
      ensures Capped(sys, After(sys, After(sys, Initial(sys), before), run), highest + |sys.devices| - 1)
    {
      var s := After(sys, Initial(sys), before);
      AloneRun(sys, Initial(sys), before, highest);
      AloneRun(sys, s, run, highest);
      assert forall d :: d in sys.devices ==> d in sys.devices && |sys.devices| >= 1;
    }
  }

  // ---- exactly when

  /** All devices prefer the same of any two contents. */
  ghost predicate OneOrder(sys: System) {
    forall d, e :: d in sys.devices && e in sys.devices ==> SameOrder(sys.cfg(d), sys.cfg(e))
  }

  ghost predicate BuiltIn(sys: System) {
    forall d :: d in sys.devices ==> NoResolver(sys.cfg(d)) && IdealChecksum(sys.cfg(d))
  }

  lemma SharedRoundsEnd(sys: System, cfg: Config)
    requires SharedPreference(sys, cfg)
    ensures RoundsEnd(sys)
  {
    forall before: seq<Action>, highest: nat, run: seq<Action> |
        IsHighest(sys, After(sys, Initial(sys), before), highest) && NoLocalWrites(run)
      ensures Capped(sys, After(sys, After(sys, Initial(sys), before), run), highest + |sys.devices| - 1)
    {
      forall d | d in sys.devices
        ensures var row := After(sys, After(sys, Initial(sys), before), run).rows[d];
          row.Some? ==> row.value.entry.version <= highest + |sys.devices| - 1
      {
        ConflictRoundsEnd(sys, cfg, before, highest, run, d);
      }
    }
  }

  /** Where two devices prefer differently, each can hold what it prefers. */
  lemma OrdersStandOff(sys: System, d: Device, e: Device, a: Content, b: Content)
    requires BuiltIn(sys) && d in sys.devices && e in sys.devices
    requires Beats(sys.cfg(d), a, b) && !Beats(sys.cfg(e), a, b)
    ensures Standoff(sys, d, e, a, b)
  {
    BeatsIsTotal(sys.cfg(d), a, b, a);
    BeatsIsTotal(sys.cfg(e), a, b, a);
  }

  lemma TwoOrdersBreakBound(sys: System)
    requires PersistsDeleted(sys) && BuiltIn(sys) && !OneOrder(sys)
    ensures !RoundsEnd(sys)
  {
    var d, e :| d in sys.devices && e in sys.devices && !SameOrder(sys.cfg(d), sys.cfg(e));
    var a, b :| Beats(sys.cfg(d), a, b) != Beats(sys.cfg(e), a, b);
    if Beats(sys.cfg(d), a, b) {
      OrdersStandOff(sys, d, e, a, b);
      StandoffBreaksBound(sys, d, e, a, b);
    } else {
      OrdersStandOff(sys, e, d, a, b);
      StandoffBreaksBound(sys, e, d, a, b);
    }
  }

  /** Without resolvers the bound on the conflict rounds holds in all runs exactly if there is only
      one device, or all devices persist deletions and prefer the same of any two contents. */
  lemma RoundsEndIff(sys: System)
    requires BuiltIn(sys)
    ensures RoundsEnd(sys) <==> SingleDevice(sys) || (PersistsDeleted(sys) && OneOrder(sys))
  {
    if SingleDevice(sys) {
      AloneRoundsEnd(sys);
    } else {
      var x, y :| x in sys.devices && y in sys.devices && x != y;
      if !PersistsDeleted(sys) {
        var d :| d in sys.devices && !sys.cfg(d).persistDeleted;
        ForgottenBreaksBound(sys, d, if x == d then y else x);
      } else if OneOrder(sys) {
        SharedRoundsEnd(sys, sys.cfg(x));
      } else {
        TwoOrdersBreakBound(sys);
      }
    }
  }

  /** Where the bound holds, agreement is reached within it. */
  lemma AgreementWithinBound(sys: System, cfg: Config, before: seq<Action>, highest: nat)
    requires SharedPreference(sys, cfg) && IsHighest(sys, After(sys, Initial(sys), before), highest)
    ensures exists run: seq<Action> ::
      && NoLocalWrites(run) && Agreed(sys, After(sys, After(sys, Initial(sys), before), run))
      && Capped(sys, After(sys, After(sys, Initial(sys), before), run), highest + |sys.devices| - 1)
  {
    AgreementStaysReachable(sys, before);
    SharedRoundsEnd(sys, cfg);
  }

  // ---- in terms of the settings

  ghost predicate OnePolicy(sys: System) {
    forall d, e :: d in sys.devices && e in sys.devices ==> sys.cfg(d).policy == sys.cfg(e).policy
  }

  ghost predicate OneChecksum(sys: System) {
    forall d, e, j :: d in sys.devices && e in sys.devices ==> sys.cfg(d).checksum(j) == sys.cfg(e).checksum(j)
  }

  /** With one checksum, to prefer the same is to have the same policy. */
  lemma OneOrderIff(sys: System)
    requires OneChecksum(sys)
    ensures OneOrder(sys) <==> OnePolicy(sys)
  {
    if OneOrder(sys) {
      forall d, e | d in sys.devices && e in sys.devices ensures sys.cfg(d).policy == sys.cfg(e).policy {
        assert SameOrder(sys.cfg(d), sys.cfg(e));
        assert Beats(sys.cfg(d), Tombstone, Live("")) == Beats(sys.cfg(e), Tombstone, Live(""));
      }
    } else {
      var d, e :| d in sys.devices && e in sys.devices && !SameOrder(sys.cfg(d), sys.cfg(e));
      var a, b :| Beats(sys.cfg(d), a, b) != Beats(sys.cfg(e), a, b);
      assert sys.cfg(d).policy != sys.cfg(e).policy;
    }
  }

  /** With deletions persisted, one checksum and no resolver, exactly if all devices have the same
      conflict policy. */
  lemma RoundsEndIffOnePolicy(sys: System)
    requires PersistsDeleted(sys) && BuiltIn(sys) && OneChecksum(sys)
    ensures RoundsEnd(sys) <==> OnePolicy(sys)
  {
    RoundsEndIff(sys);
    OneOrderIff(sys);
  }
}
