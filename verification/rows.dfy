/** The values that one object passes through on a device and on the wire, and the
    meaning of each operation on them.  Every other module refers to these functions:
    the local store and the sync controller are proved to compute them, and the
    replication protocol takes its steps by them.
 */
module Rows {

  datatype Option<+T> = None | Some(value: T)

  type Json = string

  datatype ObjectKey = ObjectKey(typeName: string, id: string)

  /** What an upload is filed under: the type name followed by the encoded id, with nothing in
      between.  The hash over it is taken to be injective. */
  function DataId(utf8: string -> string, k: ObjectKey): string {
    k.typeName + utf8(k.id)
  }

  /** What an object is at some version: deleted, or a JSON object. */
  datatype Content = Tombstone | Live(data: Json)

  datatype Entry = Entry(version: nat, content: Content)

  /** One row of the data index; `changed` marks a row that still has to be uploaded. */
  datatype Row = Row(entry: Entry, changed: bool)

  datatype Policy = PreferChanged | PreferDeleted

  /** The settings a merge depends on.  `checksum` is the ideal hash of a JSON object and
      `resolver` the user's conflict resolver, which answers None for "no result". */
  datatype Config = Config(
    persistDeleted: bool,
    policy: Policy,
    checksum: Json -> int,
    resolver: (Json, Json) -> Option<Json>)

  /** The ideal hash: different objects have different checksums. */
  ghost predicate IdealChecksum(cfg: Config) {
    forall a, b :: cfg.checksum(a) == cfg.checksum(b) ==> a == b
  }

  /** No conflict resolver is installed. */
  ghost predicate NoResolver(cfg: Config) {
    forall a, b :: cfg.resolver(a, b) == None
  }

  /** The resolver does not depend on which side is local. */
  ghost predicate SymmetricResolver(cfg: Config) {
    forall a, b :: cfg.resolver(a, b) == cfg.resolver(b, a)
  }

  /** The strict preference between two contents of the same version. */
  predicate Beats(cfg: Config, a: Content, b: Content) {
    match (a, b)
    case (Tombstone, Tombstone) => false
    case (Tombstone, Live(_)) => cfg.policy == PreferDeleted
    case (Live(_), Tombstone) => cfg.policy == PreferChanged
    case (Live(x), Live(y)) => cfg.checksum(x) > cfg.checksum(y)
  }

  /** The content both sides of a conflict settle on. */
  function Winner(cfg: Config, local: Content, remote: Content): Content {
    if local.Live? && remote.Live? && cfg.resolver(local.data, remote.data).Some? then
      Live(cfg.resolver(local.data, remote.data).value)
    else if Beats(cfg, local, remote) then local
    else remote
  }

  /** The lexicographic join with a twist: of two versions the higher one survives, and two
      different contents of one version become a new version holding the winner. */
  function Join(cfg: Config, local: Entry, remote: Entry): Entry {
    if local.version > remote.version || local == remote then local
    else if local.version < remote.version then remote
    else Entry(local.version + 1, Winner(cfg, local.content, remote.content))
  }

  /** What a row becomes when a change from the server is merged into it.  With deletions
      persisted it is a join; without, tombstones vanish once both sides agree on them,
      and a deletion that came from outside is announced again. */
  function Synced(cfg: Config, local: Option<Row>, remote: Entry): Option<Row> {
    match local
    case None =>
      if remote.content.Tombstone? && !cfg.persistDeleted then None else Some(Row(remote, false))
    case Some(Row(entry, changed)) =>
      if entry.version > remote.version then local
      else if entry.content.Tombstone? && remote.content.Tombstone? && !cfg.persistDeleted then None
      else if entry.version < remote.version then
        Some(Row(remote, remote.content.Tombstone? && !cfg.persistDeleted))
      else Some(Row(Join(cfg, entry, remote), entry != remote))
  }

  /** The version a local write gives to an object. */
  function NextVersion(row: Option<Row>): nat {
    match row
    case None => 1
    case Some(r) => r.entry.version + 1
  }

  function Saved(row: Option<Row>, data: Json): Row {
    Row(Entry(NextVersion(row), Live(data)), true)
  }

  /** Deleting only acts on a live object. */
  function Removed(row: Option<Row>): Option<Row> {
    if row.Some? && row.value.entry.content.Live? then
      Some(Row(Entry(NextVersion(row), Tombstone), true))
    else row
  }

  /** What an acknowledged upload of `version` does to a row: nothing unless the row still
      has that version. */
  function MarkedUnchanged(cfg: Config, row: Option<Row>, version: nat, isDelete: bool): Option<Row> {
    if row.None? || row.value.entry.version != version then row
    else if !isDelete || cfg.persistDeleted then Some(row.value.(changed := false))
    else if row.value.entry.content.Tombstone? then None
    else row
  }
}
