/**
 * The init endpoint: it overwrites the four collections with the default
 * data, one write after another in the fixed order, and answers success
 * with that data whatever the writes returned (`updateEdgeConfig` reports a
 * failure in its result rather than throwing, and the result is not read).
 */
module InitRoute {
  import opened Wrappers
  import opened Records
  import opened Store
  import Db
  import RestoreRoute

  /** A record of any of the collections the default data fills. */
  datatype Item = OrderItem(order: Order) | EmployeeItem(employee: Employee) | ProductTypeItem(productType: ProductType)

  function EmployeeItems(es: seq<Employee>): (items: seq<Item>)
    ensures |items| == |es| && forall i :: 0 <= i < |es| ==> items[i] == EmployeeItem(es[i])
  {
    if es == [] then [] else [EmployeeItem(es[0])] + EmployeeItems(es[1..])
  }

  function ProductTypeItems(ps: seq<ProductType>): (items: seq<Item>)
    ensures |items| == |ps| && forall i :: 0 <= i < |ps| ==> items[i] == ProductTypeItem(ps[i])
  {
    if ps == [] then [] else [ProductTypeItem(ps[0])] + ProductTypeItems(ps[1..])
  }

  /** `getDefaultData()[c]`: no orders, the seeded employees and product types, no logs. */
  function DefaultOf(c: Collection): seq<Item> {
    match c
    case Orders => []
    case Employees => EmployeeItems(Db.DefaultEmployees())
    case ProductTypes => ProductTypeItems(Db.DefaultProductTypes())
    case ProcessingLogs => []
  }

  /** `getDefaultData()` as store contents, every collection present. */
  function DefaultData(): (d: Contents<Item>)
    ensures forall c :: c in d && d[c] == DefaultOf(c)
  {
    forall c: Collection ensures c in AllCollections {
      AllCollectionsListed(c);
    }
    map c: Collection | c in AllCollections :: DefaultOf(c)
  }

  datatype Reply = Initialized(success: bool, message: string, data: Contents<Item>)

  /** GET /api/init; `writeOk(c)` is whether the write of collection `c` succeeds. */
  method Init(store: Contents<Item>, writeOk: Collection -> bool)
    returns (reply: Reply, after: Contents<Item>, attempted: seq<Collection>)
    ensures reply == Initialized(true, "Database initialized successfully", DefaultData())
    ensures attempted == AllCollections
    ensures forall c :: Read(after, c) == if writeOk(c) then Some(DefaultData()[c]) else Read(store, c)
    // when every write succeeds the store is exactly the default data
    ensures (forall c: Collection :: writeOk(c)) ==> after == DefaultData()
  {
    var data := DefaultData();
    var results;
    results, after, attempted := RestoreRoute.RestoreAll(data, writeOk, store);
    RestoreRoute.AllSteps(data, writeOk, store, after, attempted);
    RankOrderedCoverIsAll(attempted);
    if forall c: Collection :: writeOk(c) {
      ReadsDetermine(after, data);
    }
    reply := Initialized(true, "Database initialized successfully", data);
  }

  /** The seed holds three employees and four product types, and no orders or logs. */
  lemma DefaultDataSizes()
    ensures |DefaultData()[Orders]| == 0 && |DefaultData()[ProcessingLogs]| == 0
    ensures |DefaultData()[Employees]| == 3 && |DefaultData()[ProductTypes]| == 4
    ensures forall i :: 0 <= i < 3 ==> DefaultData()[Employees][i] == EmployeeItem(Db.DefaultEmployees()[i])
  {
  }
}
