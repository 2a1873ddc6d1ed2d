/** Conflict rounds end: without local writes, the devices of an account that prefer the same
    contents cannot push the version of an object far beyond the highest version it already has. */
module Conflicts {
  import opened Collections
  import opened Rows
  import opened Merge
  import opened Replication

  /** Both prefer the same of any two contents. */
  ghost predicate SameOrder(c1: Config, c2: Config) {
    forall a, b :: Beats(c1, a, b) == Beats(c2, a, b)
  }

  /** All devices persist deletions and resolve conflicts by the built-in preference of `cfg`. */
  ghost predicate SharedPreference(sys: System, cfg: Config) {
    && IdealChecksum(cfg) && NoResolver(cfg) && cfg.persistDeleted
    && forall d :: d in sys.devices ==>
         sys.cfg(d).persistDeleted && NoResolver(sys.cfg(d)) && SameOrder(sys.cfg(d), cfg)
  }

  lemma SameMerge(sys: System, cfg: Config, d: Device, row: Option<Row>, e: Entry)
    requires SharedPreference(sys, cfg) && d in sys.devices
    ensures Synced(sys.cfg(d), row, e) == Synced(cfg, row, e)
  {
    if row.Some? {
      var a, b := row.value.entry.content, e.content;
      assert NoResolver(sys.cfg(d)) && SameOrder(sys.cfg(d), cfg);
      assert Beats(sys.cfg(d), a, b) == Beats(cfg, a, b);
      assert Winner(sys.cfg(d), a, b) == Winner(cfg, a, b);
    }
  }

  ghost predicate NoLocalWrites(run: seq<Action>) {
    forall i :: 0 <= i < |run| ==> !IsLocalWrite(run[i])
  }

  /** The contents of `seen` that lose against `c`. */
  ghost function Below(cfg: Config, seen: set<Content>, c: Content): set<Content> {
    set y | y in seen && Beats(cfg, c, y)
  }

  /** A content that has won `level` conflict rounds among `seen`: it has left at least that many
      of them below it. */
  ghost predicate AtLevel(cfg: Config, seen: set<Content>, c: Content, level: nat) {
    c in seen && |Below(cfg, seen, c)| >= level
  }

  lemma AtLevelGrows(cfg: Config, seen: set<Content>, seen': set<Content>, c: Content, level: nat)
    requires seen <= seen' && AtLevel(cfg, seen, c, level)
    ensures AtLevel(cfg, seen', c, level)
  {
    SubsetSize(Below(cfg, seen, c), Below(cfg, seen', c));
  }

  /** The winner of a conflict between two contents of one level rises by one level. */
  lemma WinnerRises(cfg: Config, seen: set<Content>, a: Content, b: Content, level: nat)
    requires IdealChecksum(cfg) && NoResolver(cfg) && a != b
    requires AtLevel(cfg, seen, a, level) && AtLevel(cfg, seen, b, level)
    ensures AtLevel(cfg, seen, Winner(cfg, a, b), level + 1)
  {
    BeatsIsTotal(cfg, a, b, a);
    var w, l := Winner(cfg, a, b), if Winner(cfg, a, b) == a then b else a;
    assert Beats(cfg, w, l);
    forall y | y in Below(cfg, seen, l) ensures y in Below(cfg, seen, w) {
      BeatsIsTotal(cfg, w, l, y);
    }
    BeatsIsTotal(cfg, l, l, l);
    SubsetSize(Below(cfg, seen, l) + {l}, Below(cfg, seen, w));
  }

  lemma LevelIsBounded(cfg: Config, seen: set<Content>, c: Content, level: nat)
    requires IdealChecksum(cfg) && AtLevel(cfg, seen, c, level)
    ensures level < |seen|
  {
    BeatsIsTotal(cfg, c, c, c);
    SubsetSize(Below(cfg, seen, c) + {c}, seen);
  }

  // ---- contents at the base version

  ghost predicate AtVersion(row: Option<Row>, version: nat) {
    row.Some? && row.value.entry.version == version
  }

  /** The content each device has, or had, at the base version. */
  type History = map<Device, Content>

  /** Which entries may exist, given the history. */
  type Fits = (History, Entry) -> bool

  ghost predicate HistoryFits(sys: System, s: Net, base: nat, h: History)
    requires WellFormed(sys, s)
  {
    && h.Keys <= sys.devices
    && (forall d :: d in sys.devices && AtVersion(s.rows[d], base) ==>
          d in h && h[d] == s.rows[d].value.entry.content)
    && (forall d :: d in sys.devices && (s.rows[d].Some? ==> s.rows[d].value.entry.version < base) ==> d !in h)
  }

  /** `fits` holds for every entry in a row, on its way to the server, or accepted by it. */
  ghost predicate AllEntries(sys: System, s: Net, fits: Entry -> bool)
    requires WellFormed(sys, s)
  {
    && (forall d :: d in sys.devices && s.rows[d].Some? ==> fits(s.rows[d].value.entry))
    && (forall d, i :: d in sys.devices && 0 <= i < |s.up[d]| ==> fits(s.up[d][i].entry))
    && (forall id :: 0 <= id < |s.log| ==> fits(s.log[id].entry))
  }

  ghost function At(fits: Fits, h: History): Entry -> bool {
    e => fits(h, e)
  }

  /** Every entry that exists anywhere fits. */
  ghost predicate Bounded(sys: System, s: Net, fits: Fits, base: nat, h: History)
    requires WellFormed(sys, s)
  {
    HistoryFits(sys, s, base, h) && AllEntries(sys, s, At(fits, h))
  }

  /** `version` is the highest version of any row. */
  ghost predicate IsHighest(sys: System, s: Net, version: nat)
    requires WellFormed(sys, s)
  {
    forall d :: d in sys.devices && s.rows[d].Some? ==> s.rows[d].value.entry.version <= version
  }

  ghost function HistoryAt(sys: System, s: Net, base: nat): History
    requires WellFormed(sys, s)
  {
    map d | d in sys.devices && AtVersion(s.rows[d], base) :: s.rows[d].value.entry.content
  }

  lemma ValueSeen(h: History, d: Device)
    requires d in h
    ensures h[d] in h.Values
  {}

  /** An entry from before, or with a content that a device has at the base version. */
  ghost predicate FromStart(base: nat, h: History, e: Entry) {
    e.version < base || (e.version == base && e.content in h.Values)
  }

  ghost predicate Begins(fits: Fits, base: nat) {
    forall h, e | FromStart(base, h, e) :: fits(h, e)
  }

  /** At the highest version, only contents of rows exist. */
  lemma StartIsBounded(sys: System, s: Net, fits: Fits, base: nat)
    requires Inv(sys, s) && IsHighest(sys, s, base) && Begins(fits, base)
    ensures Bounded(sys, s, fits, base, HistoryAt(sys, s, base))
  {
    var h := HistoryAt(sys, s, base);
    forall d, e | d in sys.devices && RowCovers(s.rows[d], e) ensures At(fits, h)(e) {
      if e.version >= base {
        assert s.rows[d].value.entry == e;
        ValueSeen(h, d);
      }
      assert FromStart(base, h, e);
    }
    forall d | d in sys.devices && s.rows[d].Some? ensures At(fits, h)(s.rows[d].value.entry) {
      assert RowCovers(s.rows[d], s.rows[d].value.entry);
    }
  }

  /** A row that arrives at the base version adds its content to the history. */
  ghost function Extended(h: History, d: Device, row: Option<Row>, base: nat): History {
    if d !in h && AtVersion(row, base) then h[d := row.value.entry.content] else h
  }

  lemma ExtendedGrows(h: History, d: Device, row: Option<Row>, base: nat)
    ensures h.Values <= Extended(h, d, row, base).Values
    ensures d !in h && AtVersion(row, base) ==> row.value.entry.content in Extended(h, d, row, base).Values
  {
    var h' := Extended(h, d, row, base);
    forall c | c in h.Values ensures c in h'.Values {
      var x :| x in h && h[x] == c;
      assert x in h' && h'[x] == c;
    }
    if d !in h && AtVersion(row, base) { ValueSeen(h', d); }
  }

  /** A device takes in an entry that fits. */
  ghost predicate Takes(sys: System, base: nat, fits: Fits, h: History, d: Device, row: Option<Row>, e: Entry) {
    && d in sys.devices && h.Keys <= sys.devices && fits(h, e)
    && (row.Some? ==> fits(h, row.value.entry))
    && (d in h ==> row.Some? && row.value.entry.version >= base)
    && (AtVersion(row, base) ==> d in h && h[d] == row.value.entry.content)
  }

  /** What it ends with fits, and so does what fitted before. */
  ghost predicate FitsAfter(sys: System, base: nat, fits: Fits, h: History, d: Device, row: Option<Row>, e: Entry) {
    var row' := Synced(sys.cfg(d), row, e);
    var h' := Extended(h, d, row', base);
    && row'.Some? && fits(h', row'.value.entry)
    && (AtVersion(row', base) ==> d in h' && h'[d] == row'.value.entry.content)
    && (row'.value.entry.version < base ==> d !in h')
    && forall x :: fits(h, x) ==> fits(h', x)
  }

  /** No merge leads out of what fits. */
  ghost predicate Closed(sys: System, base: nat, fits: Fits) {
    forall h, d, row, e | Takes(sys, base, fits, h, d, row, e) :: FitsAfter(sys, base, fits, h, d, row, e)
  }

  lemma AllEntriesWeaken(sys: System, s: Net, fits: Entry -> bool, fits': Entry -> bool)
    requires WellFormed(sys, s) && AllEntries(sys, s, fits)
    requires forall e :: fits(e) ==> fits'(e)
    ensures AllEntries(sys, s, fits')
  {}

  lemma MergeKeepsEntries(sys: System, s: Net, d: Device, id: nat, fits: Entry -> bool)
    requires WellFormed(sys, s) && AllEntries(sys, s, fits) && Enabled(sys, s, MergeChange(d, id))
    requires var row := Apply(sys, s, MergeChange(d, id)).rows[d]; row.Some? ==> fits(row.value.entry)
    ensures AllEntries(sys, Apply(sys, s, MergeChange(d, id)), fits)
  {}

  lemma MergeKeepsBound(sys: System, s: Net, fits: Fits, base: nat, h: History, d: Device, id: nat)
      returns (s': Net, h': History)
    requires WellFormed(sys, s) && Closed(sys, base, fits) && Bounded(sys, s, fits, base, h)
    requires Enabled(sys, s, MergeChange(d, id))
    ensures s' == Apply(sys, s, MergeChange(d, id)) && WellFormed(sys, s') && Bounded(sys, s', fits, base, h')
  {
    s' := Apply(sys, s, MergeChange(d, id));
    var row' := Synced(sys.cfg(d), s.rows[d], s.log[id].entry);
    h' := Extended(h, d, row', base);
    assert At(fits, h)(s.log[id].entry);
    assert s.rows[d].Some? ==> At(fits, h)(s.rows[d].value.entry);
    assert Takes(sys, base, fits, h, d, s.rows[d], s.log[id].entry);
    assert FitsAfter(sys, base, fits, h, d, s.rows[d], s.log[id].entry);
    AllEntriesWeaken(sys, s, At(fits, h), At(fits, h'));
    MergeKeepsEntries(sys, s, d, id, At(fits, h'));
    MergeKeepsHistory(sys, s, base, h, h', d, id, row');
  }

  lemma MergeKeepsHistory(sys: System, s: Net, base: nat, h: History, h': History, d: Device, id: nat, row': Option<Row>)
    requires WellFormed(sys, s) && HistoryFits(sys, s, base, h) && Enabled(sys, s, MergeChange(d, id))
    requires row' == Synced(sys.cfg(d), s.rows[d], s.log[id].entry) && h' == Extended(h, d, row', base)
    requires row'.Some?
    requires AtVersion(row', base) ==> d in h' && h'[d] == row'.value.entry.content
    requires row'.value.entry.version < base ==> d !in h'
    ensures HistoryFits(sys, Apply(sys, s, MergeChange(d, id)), base, h')
  {}

  /** Uploading, accepting, acknowledging, losing and delivering create no new entries. */
  lemma TransportKeepsEntries(sys: System, s: Net, a: Action, fits: Entry -> bool)
    requires WellFormed(sys, s) && AllEntries(sys, s, fits)
    requires PersistsDeleted(sys) && !IsLocalWrite(a) && !a.MergeChange? && Enabled(sys, s, a)
    ensures AllEntries(sys, Apply(sys, s, a), fits)
    ensures forall d :: d in sys.devices ==> EntryOf(Apply(sys, s, a).rows[d]) == EntryOf(s.rows[d])
  {
    var s', d := Apply(sys, s, a), a.d;
    if a.Drop? {
      assert forall i :: 0 <= i < |s'.up[d]| ==> s'.up[d][i] == s.up[d][if i < a.i then i else i + 1];
    } else if a.Accept? {
      assert forall i :: 0 <= i < |s'.up[d]| ==> s'.up[d][i] == s.up[d][i + 1];
    } else if a.Reconnect? {
      assert forall i :: 0 <= i < |s'.up[d]| ==> s'.up[d][i] == Dead(s.up[d][i]);
    }
  }

  lemma SameEntriesFit(sys: System, s: Net, s': Net, base: nat, h: History)
    requires WellFormed(sys, s) && WellFormed(sys, s') && HistoryFits(sys, s, base, h)
    requires forall d :: d in sys.devices ==> EntryOf(s'.rows[d]) == EntryOf(s.rows[d])
    ensures HistoryFits(sys, s', base, h)
  {
    forall d | d in sys.devices
      ensures s'.rows[d].Some? <==> s.rows[d].Some?
      ensures s.rows[d].Some? ==> s'.rows[d].value.entry == s.rows[d].value.entry
    {
      assert EntryOf(s'.rows[d]) == EntryOf(s.rows[d]);
    }
  }

  lemma TransportKeepsBound(sys: System, s: Net, fits: Fits, base: nat, h: History, a: Action) returns (s': Net)
    requires WellFormed(sys, s) && PersistsDeleted(sys) && Bounded(sys, s, fits, base, h)
    requires !IsLocalWrite(a) && !a.MergeChange? && Enabled(sys, s, a)
    ensures s' == Apply(sys, s, a) && WellFormed(sys, s') && Bounded(sys, s', fits, base, h)
  {
    ApplyWellFormed(sys, s, a);
    s' := Apply(sys, s, a);
    TransportKeepsEntries(sys, s, a, At(fits, h));
    SameEntriesFit(sys, s, s', base, h);
  }

  lemma StepKeepsBound(sys: System, s: Net, fits: Fits, base: nat, h: History, a: Action) returns (s': Net, h': History)
    requires WellFormed(sys, s) && PersistsDeleted(sys) && Closed(sys, base, fits) && Bounded(sys, s, fits, base, h)
    requires !IsLocalWrite(a)
    ensures s' == Apply(sys, s, a) && WellFormed(sys, s') && Bounded(sys, s', fits, base, h')
  {
    if !Enabled(sys, s, a) {
      s', h' := s, h;
    } else if a.MergeChange? {
      s', h' := MergeKeepsBound(sys, s, fits, base, h, a.d, a.id);
    } else {
      s' := TransportKeepsBound(sys, s, fits, base, h, a);
      h' := h;
    }
  }

  lemma {:induction false} RunKeepsBound(sys: System, s: Net, fits: Fits, base: nat, h: History, run: seq<Action>)
      returns (h': History)
    requires WellFormed(sys, s) && PersistsDeleted(sys) && Closed(sys, base, fits) && Bounded(sys, s, fits, base, h)
    requires NoLocalWrites(run)
    ensures Bounded(sys, After(sys, s, run), fits, base, h')
    decreases |run|
  {
    h' := h;
    if run != [] {
      var s1;
      s1, h' := StepKeepsBound(sys, s, fits, base, h, run[0]);
      h' := RunKeepsBound(sys, s1, fits, base, h', run[1..]);
    }
  }

  /** What is reached from a state of highest version `base`. */
  lemma ReachedFits(sys: System, fits: Fits, before: seq<Action>, base: nat, run: seq<Action>) returns (s: Net, h: History)
    requires PersistsDeleted(sys) && Begins(fits, base) && Closed(sys, base, fits)
    requires IsHighest(sys, After(sys, Initial(sys), before), base) && NoLocalWrites(run)
    ensures s == After(sys, After(sys, Initial(sys), before), run) && Bounded(sys, s, fits, base, h)
  {
    var s0 := After(sys, Initial(sys), before);
    InitialInv(sys);
    RunKeepsInv(sys, Initial(sys), before);
    StartIsBounded(sys, s0, fits, base);
    h := RunKeepsBound(sys, s0, fits, base, HistoryAt(sys, s0, base), run);
    s := After(sys, s0, run);
  }

  // ---- one preference

  /** An entry at or above the base version stands on its level. */
  ghost predicate OnLevel(cfg: Config, base: nat, seen: set<Content>, e: Entry) {
    e.version >= base ==> AtLevel(cfg, seen, e.content, e.version - base)
  }

  ghost function Levels(cfg: Config, base: nat): Fits {
    (h: History, e: Entry) => OnLevel(cfg, base, h.Values, e)
  }

  lemma OnLevelGrows(cfg: Config, base: nat, seen: set<Content>, seen': set<Content>, e: Entry)
    requires seen <= seen' && OnLevel(cfg, base, seen, e)
    ensures OnLevel(cfg, base, seen', e)
  {
    if e.version >= base { AtLevelGrows(cfg, seen, seen', e.content, e.version - base); }
  }

  lemma LevelsTake(sys: System, cfg: Config, base: nat, h: History, d: Device, row: Option<Row>, e: Entry)
    requires SharedPreference(sys, cfg) && Takes(sys, base, Levels(cfg, base), h, d, row, e)
    ensures
      var row' := Synced(cfg, row, e);
      row'.Some? && OnLevel(cfg, base, Extended(h, d, row', base).Values, row'.value.entry)
  {
    var row' := Synced(cfg, row, e);
    var h' := Extended(h, d, row', base);
    ExtendedGrows(h, d, row', base);
    if row.Some? && row.value.entry.version == e.version && row.value.entry != e {
      if e.version >= base {
        WinnerRises(cfg, h.Values, row.value.entry.content, e.content, e.version - base);
        AtLevelGrows(cfg, h.Values, h'.Values, row'.value.entry.content, e.version - base + 1);
      }
    } else if row'.value.entry.version >= base {
      AtLevelGrows(cfg, h.Values, h'.Values, row'.value.entry.content, row'.value.entry.version - base);
    }
  }

  lemma LevelsFit(sys: System, cfg: Config, base: nat)
    requires SharedPreference(sys, cfg)
    ensures Begins(Levels(cfg, base), base) && Closed(sys, base, Levels(cfg, base))
  {
    var fits := Levels(cfg, base);
    forall h, d, row, e | Takes(sys, base, fits, h, d, row, e) ensures FitsAfter(sys, base, fits, h, d, row, e) {
      SameMerge(sys, cfg, d, row, e);
      LevelsTake(sys, cfg, base, h, d, row, e);
      var h' := Extended(h, d, Synced(cfg, row, e), base);
      ExtendedGrows(h, d, Synced(cfg, row, e), base);
      forall x | fits(h, x) ensures fits(h', x) {
        OnLevelGrows(cfg, base, h.Values, h'.Values, x);
      }
    }
  }

  lemma {:induction false} ValuesAreFew(h: History)
    ensures |h.Values| <= |h.Keys|
    decreases |h.Keys|
  {
    if h.Keys != {} {
      var d :| d in h.Keys;
      var rest := h - {d};
      assert rest.Keys == h.Keys - {d};
      ValuesAreFew(rest);
      assert h.Values <= rest.Values + {h[d]} by {
        forall c | c in h.Values ensures c in rest.Values + {h[d]} {
          var x :| x in h && h[x] == c;
          if x != d { assert x in rest && rest[x] == c; }
        }
      }
      SubsetSize(h.Values, rest.Values + {h[d]});
    }
  }

  /** No row of a bounded state is above base + n - 1. */
  lemma LevelsAreCapped(sys: System, s: Net, cfg: Config, base: nat, h: History, d: Device)
    requires WellFormed(sys, s) && IdealChecksum(cfg) && Bounded(sys, s, Levels(cfg, base), base, h) && d in sys.devices
    ensures s.rows[d].Some? ==> s.rows[d].value.entry.version <= base + |sys.devices| - 1
  {
    SubsetSize({d}, sys.devices);
    if s.rows[d].Some? && s.rows[d].value.entry.version > base {
      var e := s.rows[d].value.entry;
      assert At(Levels(cfg, base), h)(e);
      LevelIsBounded(cfg, h.Values, e.content, e.version - base);
      ValuesAreFew(h);
      SubsetSize(h.Keys, sys.devices);
    }
  }

  /** From any reachable state with n devices and highest version V, no run without local writes
      takes the version of any row above V + n - 1. */
  lemma ConflictRoundsEnd(sys: System, cfg: Config, before: seq<Action>, highest: nat, run: seq<Action>, d: Device)
    requires SharedPreference(sys, cfg) && d in sys.devices
    requires IsHighest(sys, After(sys, Initial(sys), before), highest) && NoLocalWrites(run)
    ensures
      var row := After(sys, After(sys, Initial(sys), before), run).rows[d];
      row.Some? ==> row.value.entry.version <= highest + |sys.devices| - 1
  {
    LevelsFit(sys, cfg, highest);
    var s, h := ReachedFits(sys, Levels(cfg, highest), before, highest, run);
    LevelsAreCapped(sys, s, cfg, highest, h, d);
  }
}
