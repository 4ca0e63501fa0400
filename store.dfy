/**
 * The key-value record store: four named collections, each an array of
 * records. A collection that was never written (or holds a falsy value)
 * is simply not a key of the map.
 */
module Store {
  import opened Wrappers

  datatype Collection = Orders | Employees | ProductTypes | ProcessingLogs

  /** The store key of each collection. */
  function Key(c: Collection): string {
    match c
    case Orders => "orders"
    case Employees => "employees"
    case ProductTypes => "productTypes"
    case ProcessingLogs => "processingLogs"
  }

  /** Position of a collection in the order backup and restore handle them. */
  function Rank(c: Collection): nat {
    match c
    case Orders => 0
    case Employees => 1
    case ProductTypes => 2
    case ProcessingLogs => 3
  }

  const AllCollections: seq<Collection> := [Orders, Employees, ProductTypes, ProcessingLogs]

  lemma AllCollectionsListed(c: Collection)
    ensures AllCollections[Rank(c)] == c
  {
  }

  /** Strictly increasing ranks bound each position from below. */
  lemma {:induction false} RankAtLeastIndex(s: seq<Collection>, i: nat)
    requires i < |s|
    requires forall a, b :: 0 <= a < b < |s| ==> Rank(s[a]) < Rank(s[b])
    ensures Rank(s[i]) >= i
  {
    if i > 0 {
      RankAtLeastIndex(s, i - 1);
    }
  }

  /** A list in rank order that mentions every collection is the full list. */
  lemma RankOrderedCoverIsAll(s: seq<Collection>)
    requires forall c :: c in s
    requires forall a, b :: 0 <= a < b < |s| ==> Rank(s[a]) < Rank(s[b])
    ensures s == AllCollections
  {
    assert Orders in s;
    var k0 :| 0 <= k0 < |s| && s[k0] == Orders;
    RankAtLeastIndex(s, k0);
    assert Employees in s;
    var k1 :| 0 <= k1 < |s| && s[k1] == Employees;
    RankAtLeastIndex(s, k1);
    assert ProductTypes in s;
    var k2 :| 0 <= k2 < |s| && s[k2] == ProductTypes;
    RankAtLeastIndex(s, k2);
    assert ProcessingLogs in s;
    var k3 :| 0 <= k3 < |s| && s[k3] == ProcessingLogs;
    RankAtLeastIndex(s, k3);
    RankAtLeastIndex(s, |s| - 1);
    assert |s| == 4;
  }

  type Contents<T> = map<Collection, seq<T>>

  /** `get(key)` on the store: the stored array, or None when absent. */
  function Read<T>(store: Contents<T>, c: Collection): (r: Option<seq<T>>)
    ensures r.Some? <==> c in store
    ensures r.Some? ==> r.value == store[c]
  {
    if c in store then Some(store[c]) else None
  }

  /** Two stores that read alike everywhere are equal. */
  lemma ReadsDetermine<T>(a: Contents<T>, b: Contents<T>)
    requires forall c :: Read(a, c) == Read(b, c)
    ensures a == b
  {
    assert forall c :: c in a <==> Read(a, c).Some?;
    assert a.Keys == b.Keys;
  }
}
