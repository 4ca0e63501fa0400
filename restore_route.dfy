/**
 * The restore endpoint: given a backup's `data` object, it writes each
 * collection present in it back to the record store, one after another in
 * the fixed order orders, employees, productTypes, processingLogs, and
 * reports per collection whether the write succeeded.
 *
 * The store is passed in and the new store returned; `writeOk(c)` is
 * whether `updateEdgeConfig` succeeds for collection `c`.
 */
module RestoreRoute {
  import opened Wrappers
  import opened Store

  datatype Reply =
    | InvalidBackup(error: string)   // status 400
    | Restored(success: bool, message: string, results: map<Collection, bool>, stats: map<Collection, nat>)

  /** `results` before any write: every collection false. */
  const NoResults: map<Collection, bool> :=
    map[Orders := false, Employees := false, ProductTypes := false, ProcessingLogs := false]

  /** The `stats` of the reply: each collection's length in the backup, 0 when absent. */
  function RestoreStats<T>(data: Contents<T>): (stats: map<Collection, nat>)
    ensures forall c :: c in stats && stats[c] == if c in data then |data[c]| else 0
  {
    forall c: Collection ensures c in AllCollections {
      AllCollectionsListed(c);
    }
    map c: Collection | c in AllCollections :: if c in data then |data[c]| else 0
  }

  /** `results` after the steps for the collections ranked below `k`: true exactly for the successful writes. */
  ghost predicate ResultsUpTo(k: nat, data: Contents, writeOk: Collection -> bool, results: map<Collection, bool>) {
    forall c :: c in results && (results[c] <==> Rank(c) < k && c in data && writeOk(c))
  }

  /** The store after those steps: the successful writes applied, everything else as before. */
  ghost predicate StoreUpTo<T>(k: nat, data: Contents<T>, writeOk: Collection -> bool, store: Contents<T>, after: Contents<T>) {
    forall c :: Read(after, c) == if Rank(c) < k && c in data && writeOk(c) then Some(data[c]) else Read(store, c)
  }

  /** The writes attempted in those steps: the present collections, in rank order. */
  ghost predicate AttemptedUpTo(k: nat, data: Contents, attempted: seq<Collection>) {
    && (forall c :: c in attempted <==> Rank(c) < k && c in data)
    && (forall i, j :: 0 <= i < j < |attempted| ==> Rank(attempted[i]) < Rank(attempted[j]))
  }

  lemma ResultsStep(c: Collection, data: Contents, writeOk: Collection -> bool, results: map<Collection, bool>)
    requires ResultsUpTo(Rank(c), data, writeOk, results)
    ensures ResultsUpTo(Rank(c) + 1, data, writeOk, if c in data then results[c := writeOk(c)] else results)
  {
  }

  lemma StoreStep<T>(c: Collection, data: Contents<T>, writeOk: Collection -> bool, store: Contents<T>, after: Contents<T>)
    requires StoreUpTo(Rank(c), data, writeOk, store, after)
    ensures StoreUpTo(Rank(c) + 1, data, writeOk, store, if c in data && writeOk(c) then after[c := data[c]] else after)
  {
    var after' := if c in data && writeOk(c) then after[c := data[c]] else after;
    forall d ensures Read(after', d) ==
        if Rank(d) < Rank(c) + 1 && d in data && writeOk(d) then Some(data[d]) else Read(store, d) {
      if d != c {
        assert Read(after', d) == Read(after, d);
      }
    }
  }

  lemma AttemptedStep(c: Collection, data: Contents, attempted: seq<Collection>)
    requires AttemptedUpTo(Rank(c), data, attempted)
    ensures AttemptedUpTo(Rank(c) + 1, data, if c in data then attempted + [c] else attempted)
  {
  }

  /** One `if (data.c) { results.c = (await updateEdgeConfig(c, data.c)).success }` step. */
  method RestoreOne<T>(c: Collection, data: Contents<T>, writeOk: Collection -> bool, ghost store: Contents<T>,
                       results: map<Collection, bool>, after: Contents<T>, attempted: seq<Collection>)
    returns (results': map<Collection, bool>, after': Contents<T>, attempted': seq<Collection>)
    requires ResultsUpTo(Rank(c), data, writeOk, results)
    requires StoreUpTo(Rank(c), data, writeOk, store, after)
    requires AttemptedUpTo(Rank(c), data, attempted)
    ensures ResultsUpTo(Rank(c) + 1, data, writeOk, results')
    ensures StoreUpTo(Rank(c) + 1, data, writeOk, store, after')
    ensures AttemptedUpTo(Rank(c) + 1, data, attempted')
  {
    ResultsStep(c, data, writeOk, results);
    StoreStep(c, data, writeOk, store, after);
    AttemptedStep(c, data, attempted);
    results', after', attempted' := results, after, attempted;
    if c in data {
      attempted' := attempted + [c];
      var ok := writeOk(c);
      results' := results[c := ok];
      if ok {
        after' := after[c := data[c]];
      }
    }
  }

  /** The four steps, from `results` all false and the store as it was. */
  method RestoreAll<T>(data: Contents<T>, writeOk: Collection -> bool, store: Contents<T>)
    returns (results: map<Collection, bool>, after: Contents<T>, attempted: seq<Collection>)
    ensures ResultsUpTo(4, data, writeOk, results)
    ensures StoreUpTo(4, data, writeOk, store, after)
    ensures AttemptedUpTo(4, data, attempted)
  {
    results := NoResults;
    forall c: Collection ensures c in results {
      AllCollectionsListed(c);
    }
    after, attempted := store, [];
    results, after, attempted := RestoreOne(Orders, data, writeOk, store, results, after, attempted);
    results, after, attempted := RestoreOne(Employees, data, writeOk, store, results, after, attempted);
    results, after, attempted := RestoreOne(ProductTypes, data, writeOk, store, results, after, attempted);
    results, after, attempted := RestoreOne(ProcessingLogs, data, writeOk, store, results, after, attempted);
  }

  /** After all four steps: exactly the present collections were attempted, and the successful writes applied. */
  lemma AllSteps<T>(data: Contents<T>, writeOk: Collection -> bool, store: Contents<T>, after: Contents<T>, attempted: seq<Collection>)
    requires StoreUpTo(4, data, writeOk, store, after)
    requires AttemptedUpTo(4, data, attempted)
    ensures forall c :: Read(after, c) == if c in data && writeOk(c) then Some(data[c]) else Read(store, c)
    ensures forall c :: c in attempted <==> c in data
  {
    forall c ensures Rank(c) < 4 {
    }
  }

  /** POST /api/restore. */
  method Restore<T>(data: Option<Contents<T>>, store: Contents<T>, writeOk: Collection -> bool)
    returns (reply: Reply, after: Contents<T>, attempted: seq<Collection>)
    ensures data.None? ==>
      reply == InvalidBackup("Invalid backup file - missing data field") && after == store && attempted == []
    ensures data.Some? ==> reply.Restored?
    ensures data.Some? ==> forall c ::
      c in reply.results && (reply.results[c] <==> c in data.value && writeOk(c))
    ensures data.Some? ==> (reply.success <==> forall c: Collection :: c in data.value && writeOk(c))
    ensures data.Some? ==>
      reply.message == if reply.success then "Data restored successfully" else "Some data failed to restore"
    ensures data.Some? ==> reply.stats == RestoreStats(data.value)
    // a collection changes exactly when it was in the backup and its write succeeded
    ensures data.Some? ==> forall c ::
      Read(after, c) == if c in data.value && writeOk(c) then Some(data.value[c]) else Read(store, c)
    // the collections are written in the fixed order, each present one once
    ensures data.Some? ==> forall c :: c in attempted <==> c in data.value
    ensures forall i, j :: 0 <= i < j < |attempted| ==> Rank(attempted[i]) < Rank(attempted[j])
  {
    if data.None? {
      return InvalidBackup("Invalid backup file - missing data field"), store, [];
    }
    var d := data.value;
    var results;
    results, after, attempted := RestoreAll(d, writeOk, store);
    forall c ensures c in results && (results[c] <==> c in d && writeOk(c)) {
      assert Rank(c) < 4;
    }
    forall c ensures Read(after, c) == if c in d && writeOk(c) then Some(d[c]) else Read(store, c) {
      assert Rank(c) < 4;
    }
    forall c ensures c in attempted <==> c in d {
      assert Rank(c) < 4;
    }
    var allSuccess := results[Orders] && results[Employees] && results[ProductTypes] && results[ProcessingLogs];
    if allSuccess {
      forall c: Collection ensures results[c] {
        match c
        case Orders =>
        case Employees =>
        case ProductTypes =>
        case ProcessingLogs =>
      }
    }
    var message := if allSuccess then "Data restored successfully" else "Some data failed to restore";
    reply := Restored(allSuccess, message, results, RestoreStats(d));
  }
}
