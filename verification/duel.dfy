/** Two devices with any policies and any resolvers: when their conflict rounds end. */
module Duels {
  import opened Rows
  import opened Merge
  import opened Replication
  import opened Conflicts
  import opened Settling
  import opened Divergence
  import opened Standoffs

  ghost predicate AreTwo(sys: System, d: Device, e: Device) {
    d != e && sys.devices == {d, e}
  }

  /** Both settle any conflict on one content, whichever side is local. */
  ghost predicate SettleAlike(sys: System, d: Device, e: Device) {
    forall a, b :: a != b ==> Winner(sys.cfg(d), a, b) == Winner(sys.cfg(e), b, a)
  }

  // ---- one round at most

  /** At the base version there is a content for each device, and above it only what they settle on. */
  ghost predicate InOneRound(sys: System, d: Device, e: Device, base: nat, h: History, x: Entry) {
    && x.version <= base + 1
    && (x.version == base ==> x.content in h.Values)
    && (x.version == base + 1 ==> d in h && e in h && h[d] != h[e] && x.content == Winner(sys.cfg(d), h[d], h[e]))
  }

  ghost function OneRound(sys: System, d: Device, e: Device, base: nat): Fits {
    (h: History, x: Entry) => InOneRound(sys, d, e, base, h, x)
  }

  lemma OneRoundGrows(sys: System, d: Device, e: Device, base: nat, h: History, x: Device, row: Option<Row>, y: Entry)
    requires h.Keys <= {d, e} && x in {d, e} && InOneRound(sys, d, e, base, h, y)
    ensures InOneRound(sys, d, e, base, Extended(h, x, row, base), y)
  {
    ExtendedGrows(h, x, row, base);
  }

  lemma ContentOfOther(h: History, d: Device, e: Device, x: Device, c: Content)
    requires h.Keys <= {d, e} && d != e && x in {d, e} && x in h && c in h.Values && c != h[x]
    ensures d in h && e in h && c == h[if x == d then e else d]
  {}

  lemma OneRoundTakes(sys: System, d: Device, e: Device, base: nat, h: History, x: Device, row: Option<Row>, y: Entry)
    requires AreTwo(sys, d, e) && SettleAlike(sys, d, e) && PersistsDeleted(sys)
    requires Takes(sys, base, OneRound(sys, d, e, base), h, x, row, y)
    ensures
      var row' := Synced(sys.cfg(x), row, y);
      row'.Some? && InOneRound(sys, d, e, base, Extended(h, x, row', base), row'.value.entry)
  {
    var row' := Synced(sys.cfg(x), row, y);
    ExtendedGrows(h, x, row', base);
    if row.Some? && row.value.entry.version == y.version == base && row.value.entry != y {
      ContentOfOther(h, d, e, x, y.content);
      assert Winner(sys.cfg(d), h[d], h[e]) == Winner(sys.cfg(e), h[e], h[d]);
    }
  }

  lemma OneRoundFits(sys: System, d: Device, e: Device, base: nat)
    requires AreTwo(sys, d, e) && SettleAlike(sys, d, e) && PersistsDeleted(sys)
    ensures Begins(OneRound(sys, d, e, base), base) && Closed(sys, base, OneRound(sys, d, e, base))
  {
    var fits := OneRound(sys, d, e, base);
    forall h, x, row, y | Takes(sys, base, fits, h, x, row, y) ensures FitsAfter(sys, base, fits, h, x, row, y) {
      OneRoundTakes(sys, d, e, base, h, x, row, y);
      var row' := Synced(sys.cfg(x), row, y);
      ExtendedGrows(h, x, row', base);
      forall z | fits(h, z) ensures fits(Extended(h, x, row', base), z) {
        OneRoundGrows(sys, d, e, base, h, x, row', z);
      }
    }
  }

  lemma OneRoundCapped(sys: System, d: Device, e: Device, base: nat, s: Net, h: History)
    requires WellFormed(sys, s) && AllEntries(sys, s, At(OneRound(sys, d, e, base), h))
    ensures Capped(sys, s, base + 1)
  {
    forall x | x in sys.devices && s.rows[x].Some? ensures s.rows[x].value.entry.version <= base + 1 {
      assert At(OneRound(sys, d, e, base), h)(s.rows[x].value.entry);
    }
  }

  lemma AlikeRunEnds(sys: System, d: Device, e: Device, before: seq<Action>, highest: nat, run: seq<Action>)
    requires AreTwo(sys, d, e) && SettleAlike(sys, d, e) && PersistsDeleted(sys)
    requires IsHighest(sys, After(sys, Initial(sys), before), highest) && NoLocalWrites(run)
    ensures Capped(sys, After(sys, After(sys, Initial(sys), before), run), highest + 1)
  {
    OneRoundFits(sys, d, e, highest);
    var s, h := ReachedFits(sys, OneRound(sys, d, e, highest), before, highest, run);
    OneRoundCapped(sys, d, e, highest, s, h);
  }

  lemma AlikeRoundsEnd(sys: System, d: Device, e: Device)
    requires AreTwo(sys, d, e) && SettleAlike(sys, d, e) && PersistsDeleted(sys)
    ensures RoundsEnd(sys)
  {
    forall before: seq<Action>, highest: nat, run: seq<Action> |
        IsHighest(sys, After(sys, Initial(sys), before), highest) && NoLocalWrites(run)
      ensures Capped(sys, After(sys, After(sys, Initial(sys), before), run), highest + |sys.devices| - 1)
    {
      AlikeRunEnds(sys, d, e, before, highest, run);
    }
  }

  // ---- a second round

  lemma CrossTwice(sys: System, s: Net, d: Device, e: Device, v: nat, a: Content, b: Content) returns (run: seq<Action>, s': Net)
    requires PersistsDeleted(sys) && Facing(sys, s, d, e, v, a, b)
    requires a != b && Winner(sys.cfg(d), a, b) != Winner(sys.cfg(e), b, a)
    ensures NoLocalWrites(run) && s' == After(sys, s, run) && d in s'.rows && AtVersion(s'.rows[d], v + 2)
  {
    var first, s1 := Cross(sys, s, d, e, v, a, b);
    var second;
    second, s' := Cross(sys, s1, d, e, v + 1, Winner(sys.cfg(d), a, b), Winner(sys.cfg(e), b, a));
    run := TwoRuns(sys, s, first, s1, second, s');
  }

  /** Devices that settle one conflict differently are in conflict again. */
  lemma DifferBreaksBound(sys: System, d: Device, e: Device, a: Content, b: Content)
    requires AreTwo(sys, d, e) && PersistsDeleted(sys)
    requires a != b && Winner(sys.cfg(d), a, b) != Winner(sys.cfg(e), b, a)
    ensures !RoundsEnd(sys)
  {
    var before, s := Face(sys, d, e, a, b);
    var run, s' := CrossTwice(sys, s, d, e, 2, a, b);
    ExceedsBound(sys, before, run, 2, d);
  }

  /** With two devices, whatever their resolvers, the bound on the conflict rounds holds in all runs
      exactly if both persist deletions and settle every conflict on one content. */
  lemma TwoDevicesIff(sys: System, d: Device, e: Device)
    requires AreTwo(sys, d, e)
    ensures RoundsEnd(sys) <==> PersistsDeleted(sys) && SettleAlike(sys, d, e)
  {
    if !PersistsDeleted(sys) {
      var x :| x in sys.devices && !sys.cfg(x).persistDeleted;
      ForgottenBreaksBound(sys, x, if x == d then e else d);
    } else if SettleAlike(sys, d, e) {
      AlikeRoundsEnd(sys, d, e);
    } else {
      var a, b :| a != b && Winner(sys.cfg(d), a, b) != Winner(sys.cfg(e), b, a);
      DifferBreaksBound(sys, d, e, a, b);
    }
  }
}
