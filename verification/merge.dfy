/** Laws of the merge: what a single application of `Synced` promises for all inputs. */
module Merge {
  import opened Rows

  /** `a` is superseded by or equal to `b`: the order in which entries replace each other. */
  ghost predicate Covers(b: Entry, a: Entry) {
    a.version < b.version || a == b
  }

  ghost predicate RowCovers(row: Option<Row>, e: Entry) {
    row.Some? && Covers(row.value.entry, e)
  }

  lemma CoversTransitive(a: Entry, b: Entry, c: Entry)
    requires Covers(a, b) && Covers(b, c)
    ensures Covers(a, c)
  {}

  /** With deletions persisted the merged row covers both sides. */
  lemma SyncedIsUpperBound(cfg: Config, local: Option<Row>, remote: Entry)
    requires cfg.persistDeleted
    ensures RowCovers(Synced(cfg, local, remote), remote)
    ensures local.Some? ==> RowCovers(Synced(cfg, local, remote), local.value.entry)
  {
  }

  /** The branch table refines one join of version and content, except that two deletions that
      are not persisted leave no row. */
  lemma SyncedIsJoin(cfg: Config, local: Row, remote: Entry)
    ensures
      var vanishes := !cfg.persistDeleted && local.entry.content.Tombstone? && remote.content.Tombstone?
                      && local.entry.version <= remote.version;
      EntryOf(Synced(cfg, Some(local), remote)) == if vanishes then None else Some(Join(cfg, local.entry, remote))
  {
  }

  // ---- the merge in terms of the settings

  /** Two different objects of version `v`: a new version that still has to be uploaded, with the
      object of the resolver or else the one with the larger checksum. */
  ghost predicate ObjectsSettled(cfg: Config, v: nat, mine: Json, theirs: Json, result: Option<Row>) {
    && result.Some? && result.value.changed && result.value.entry.version == v + 1 && result.value.entry.content.Live?
    && var kept := result.value.entry.content.data;
       match cfg.resolver(mine, theirs)
       case Some(data) => kept == data
       case None =>
         (kept == mine || kept == theirs)
         && cfg.checksum(kept) >= cfg.checksum(mine) && cfg.checksum(kept) >= cfg.checksum(theirs)
  }

  /** An object against a deletion of version `v`: the policy decides, whichever side is local. */
  ghost predicate DeletionSettled(cfg: Config, v: nat, data: Json, result: Option<Row>) {
    && (cfg.policy == PreferChanged ==> result == Some(Row(Entry(v + 1, Live(data)), true)))
    && (cfg.policy == PreferDeleted ==> result == Some(Row(Entry(v + 1, Tombstone), true)))
  }

  /** The same version on both sides. */
  ghost predicate SameVersionSettled(cfg: Config, v: nat, mine: Content, theirs: Content, result: Option<Row>) {
    match (mine, theirs)
    case (Live(x), Live(y)) =>
      if cfg.checksum(x) == cfg.checksum(y) then result == Some(Row(Entry(v, mine), false))
      else ObjectsSettled(cfg, v, x, y, result)
    case (Live(x), Tombstone) => DeletionSettled(cfg, v, x, result)
    case (Tombstone, Live(y)) => DeletionSettled(cfg, v, y, result)
    case (Tombstone, Tombstone) => result == if cfg.persistDeleted then Some(Row(Entry(v, Tombstone), false)) else None
  }

  /** What a merge ends with, said in versions, checksums, resolver, policy and persistence. */
  ghost predicate MergedAs(cfg: Config, local: Option<Row>, remote: Entry, result: Option<Row>) {
    if local.None? then
      result == if remote.content.Live? || cfg.persistDeleted then Some(Row(remote, false)) else None
    else
      var mine := local.value.entry;
      && (mine.version > remote.version ==> result == local)
      && (mine.version == remote.version ==>
            SameVersionSettled(cfg, mine.version, mine.content, remote.content, result))
      && (mine.version < remote.version ==>
            if remote.content.Live? || cfg.persistDeleted then result == Some(Row(remote, false))
            else if mine.content.Live? then result == Some(Row(remote, true))
            else result == None)
  }

  /** The branch table has exactly this result. */
  lemma SyncedIff(cfg: Config, local: Option<Row>, remote: Entry, result: Option<Row>)
    requires IdealChecksum(cfg)
    ensures MergedAs(cfg, local, remote, result) <==> result == Synced(cfg, local, remote)
  {
    if local.Some? && local.value.entry.content.Live? && remote.content.Live? {
      var x, y := local.value.entry.content.data, remote.content.data;
      assert cfg.checksum(x) == cfg.checksum(y) ==> x == y;
      if result.Some? && result.value.entry.content.Live? {
        var kept := result.value.entry.content.data;
        assert cfg.checksum(kept) == cfg.checksum(x) ==> kept == x;
      }
    }
  }

  // ---- laws

  /** The surviving content comes from one of the sides or from the resolver, and a new
      version is created for a conflict only, one above the version both sides had. */
  lemma SyncedIsConservative(cfg: Config, local: Row, remote: Entry)
    requires cfg.persistDeleted
    ensures
      var r := Synced(cfg, Some(local), remote).value;
      && (r.entry == local.entry || r.entry == remote ||
          (local.entry.version == remote.version && local.entry.content != remote.content
           && r.entry == Entry(remote.version + 1, Winner(cfg, local.entry.content, remote.content))))
      && (r.changed <==>
          (local.changed && local.entry.version > remote.version)
          || (local.entry.version == remote.version && local.entry.content != remote.content))
  {
  }

  /** The winner of a conflict is one of the two contents unless a resolver answers, and the
      preference is a strict total order. */
  lemma BeatsIsTotal(cfg: Config, a: Content, b: Content, c: Content)
    requires IdealChecksum(cfg)
    ensures a != b ==> (Beats(cfg, a, b) <==> !Beats(cfg, b, a))
    ensures !Beats(cfg, a, a)
    ensures Beats(cfg, a, b) && Beats(cfg, b, c) ==> Beats(cfg, a, c)
  {
    if a.Live? && b.Live? && a != b {
      assert cfg.checksum(a.data) != cfg.checksum(b.data);
    }
  }

  ghost function EntryOf(row: Option<Row>): Option<Entry> {
    if row.None? then None else Some(row.value.entry)
  }

  /** Both devices end with the same entry when they exchange `a` and `b`. */
  ghost predicate Commutes(cfg: Config, a: Entry, b: Entry) {
    forall ca: bool, cb: bool {:trigger Row(a, ca), Row(b, cb)} ::
      EntryOf(Synced(cfg, Some(Row(a, ca)), b)) == EntryOf(Synced(cfg, Some(Row(b, cb)), a))
  }

  /** Exactly when the merge of two entries does not depend on which one is local. */
  lemma SyncedCommutesIff(cfg: Config, a: Entry, b: Entry)
    requires IdealChecksum(cfg)
    requires SymmetricResolver(cfg)
    ensures Commutes(cfg, a, b) <==>
            (cfg.persistDeleted || a.version == b.version || a.content.Live? || b.content.Live?)
  {
    BeatsIsTotal(cfg, a.content, b.content, a.content);
    if !cfg.persistDeleted && a.version != b.version && a.content.Tombstone? && b.content.Tombstone? {
      var x, y := Row(a, false), Row(b, false);
      assert EntryOf(Synced(cfg, Some(x), b)) != EntryOf(Synced(cfg, Some(y), a));
    } else {
      forall ca: bool, cb: bool
        ensures EntryOf(Synced(cfg, Some(Row(a, ca)), b)) == EntryOf(Synced(cfg, Some(Row(b, cb)), a))
      {
      }
    }
  }

  /** Redelivering the change that was just merged leaves the row as it is, exactly outside
      this case: deletions are not persisted and the change deleted a live object. */
  lemma RedeliveryIsHarmlessIff(cfg: Config, local: Option<Row>, remote: Entry)
    ensures Synced(cfg, Synced(cfg, local, remote), remote) == Synced(cfg, local, remote) <==>
            !(&& !cfg.persistDeleted
              && local.Some? && local.value.entry.content.Live?
              && remote.content.Tombstone?
              && local.value.entry.version < remote.version)
  {
  }

  /** The join is not associative: three devices at version 1 with three contents reach version
      2 or 3 depending on the order, so convergence cannot rest on a semilattice. */
  lemma JoinIsNotAssociative(cfg: Config, x: Json, y: Json, z: Json)
    requires IdealChecksum(cfg) && NoResolver(cfg)
    requires cfg.checksum(x) < cfg.checksum(y) < cfg.checksum(z)
    ensures
      var a, b, c := Entry(1, Live(x)), Entry(1, Live(y)), Entry(1, Live(z));
      Join(cfg, Join(cfg, a, b), c) != Join(cfg, a, Join(cfg, b, c))
  {
  }
}
