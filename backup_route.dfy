/**
 * The backup endpoint: a snapshot of all four collections (an absent one
 * as an empty array) with their lengths, and the round trip of handing
 * that snapshot straight back to the restore endpoint.
 */
module BackupRoute {
  import opened Wrappers
  import opened Store
  import RestoreRoute

  /** The backup document; `timestamp` is the creation time in milliseconds. */
  datatype Backup<T> = Backup(timestamp: int, data: Contents<T>, stats: map<Collection, nat>)

  /** GET /api/backup on a store at time `timestamp`. */
  function Snapshot<T>(store: Contents<T>, timestamp: int): (b: Backup<T>)
    ensures b.timestamp == timestamp
    ensures forall c :: c in b.data && b.data[c] == Read(store, c).GetOr([])
    ensures forall c :: c in b.stats && b.stats[c] == |b.data[c]|
  {
    forall c: Collection ensures c in AllCollections {
      AllCollectionsListed(c);
    }
    var data := map c: Collection | c in AllCollections :: Read(store, c).GetOr([]);
    Backup(timestamp, data, map c: Collection | c in AllCollections :: |data[c]|)
  }

  /** Restoring a backup reports the same counts the backup recorded. */
  lemma RestoreStatsOfBackup<T>(store: Contents<T>, timestamp: int)
    ensures RestoreRoute.RestoreStats(Snapshot(store, timestamp).data) == Snapshot(store, timestamp).stats
  {
    var b := Snapshot(store, timestamp);
    var s := RestoreRoute.RestoreStats(b.data);
    assert s.Keys == b.stats.Keys;
  }

  /**
   * Restoring a fresh backup: every collection is written, the restore
   * succeeds exactly when every write does, and each collection whose
   * write succeeded holds what it held before (an absent one, `[]`).
   */
  method BackupThenRestore<T>(store: Contents<T>, timestamp: int, writeOk: Collection -> bool)
    returns (reply: RestoreRoute.Reply, after: Contents<T>, attempted: seq<Collection>)
    ensures attempted == AllCollections
    ensures reply.Restored?
    ensures reply.success <==> forall c: Collection :: writeOk(c)
    ensures reply.stats == Snapshot(store, timestamp).stats
    ensures forall c :: Read(after, c) == if writeOk(c) then Some(Read(store, c).GetOr([])) else Read(store, c)
    // when every write succeeds, the store is the backup's data
    ensures (forall c: Collection :: writeOk(c)) ==> after == Snapshot(store, timestamp).data
  {
    var backup := Snapshot(store, timestamp);
    reply, after, attempted := RestoreRoute.Restore(Some(backup.data), store, writeOk);
    RestoreStatsOfBackup(store, timestamp);
    RankOrderedCoverIsAll(attempted);
    if forall c: Collection :: writeOk(c) {
      forall c ensures c in after && after[c] == backup.data[c] {
        assert Read(after, c) == Some(backup.data[c]);
      }
      assert after.Keys == backup.data.Keys;
    }
  }
}
