/**
 * The readers of lib/db.js: the default seed, the falsy-value fallback of
 * `getFromEdge`, the active-only employee and product-type lists, and the
 * single-order lookup.
 */
module Db {
  import opened Wrappers
  import opened Records

  /**
   * `getFromEdge(key, fallback)`: the stored array unless the read gave a
   * falsy value or failed (both None here), in which case the fallback.
   * An array, even an empty one, is truthy and is kept.
   */
  function GetFromEdge<T>(stored: Option<seq<T>>, fallback: seq<T>): seq<T> {
    stored.GetOr(fallback)
  }

  /** Any stored list, the empty one included, is returned as is; only an absent value falls back. */
  lemma GetFromEdgeFallback<T>(stored: Option<seq<T>>, fallback: seq<T>)
    ensures stored.None? ==> GetFromEdge(stored, fallback) == fallback
    ensures stored.Some? ==> GetFromEdge(stored, fallback) == stored.value
  {
  }

  /** `getDefaultData().employees`. */
  function DefaultEmployees(): seq<Employee> {
    [ Employee(1, "Arun", "engraver", true, None),
      Employee(2, "Sreerag", "engraver", true, None),
      Employee(3, "Rahul", "engraver", true, None) ]
  }

  /** `getDefaultData().productTypes`. */
  function DefaultProductTypes(): seq<ProductType> {
    [ ProductType(1, "Keychain", true, None),
      ProductType(2, "Photo Frame", true, None),
      ProductType(3, "Wall Art", true, None),
      ProductType(4, "Custom", true, None) ]
  }

  /** The seed: engravers 1 to 3 and product types 1 to 4, all active, ids at their positions. */
  lemma DefaultSeed()
    ensures |DefaultEmployees()| == 3 && |DefaultProductTypes()| == 4
    ensures forall i :: 0 <= i < 3 ==>
      DefaultEmployees()[i].id == i + 1 && DefaultEmployees()[i].active && DefaultEmployees()[i].role == "engraver"
    ensures forall i :: 0 <= i < 4 ==> DefaultProductTypes()[i].id == i + 1 && DefaultProductTypes()[i].active
  {
  }

  /** Whether `getEmployees(role)` keeps an employee: active and, for a truthy role, of that role. */
  predicate KeepEmployee(e: Employee, role: Option<string>) {
    e.active && (Truthy(role) ==> e.role == role.value)
  }

  /** The employee filter, in list order. */
  function FilterEmployees(s: seq<Employee>, role: Option<string>): (r: seq<Employee>)
    ensures |r| <= |s|
    ensures forall e :: multiset(r)[e] == if KeepEmployee(e, role) then multiset(s)[e] else 0
  {
    if s == [] then []
    else
      assert s == [s[0]] + s[1..];
      (if KeepEmployee(s[0], role) then [s[0]] else []) + FilterEmployees(s[1..], role)
  }

  /** `getEmployees(role)`: the stored employees (the seed when none are stored), filtered. */
  function GetEmployees(stored: Option<seq<Employee>>, role: Option<string>): (r: seq<Employee>)
    ensures forall e :: e in r <==> e in GetFromEdge(stored, DefaultEmployees()) && KeepEmployee(e, role)
  {
    var r := FilterEmployees(GetFromEdge(stored, DefaultEmployees()), role);
    assert forall e :: e in r <==> multiset(r)[e] > 0;
    r
  }

  /** The product-type filter: only active entries, in list order. */
  function FilterProductTypes(s: seq<ProductType>): (r: seq<ProductType>)
    ensures |r| <= |s|
    ensures forall p :: multiset(r)[p] == if p.active then multiset(s)[p] else 0
  {
    if s == [] then []
    else
      assert s == [s[0]] + s[1..];
      (if s[0].active then [s[0]] else []) + FilterProductTypes(s[1..])
  }

  /** `getProductTypes()`: the active stored product types (the seed when none are stored). */
  function GetProductTypes(stored: Option<seq<ProductType>>): (r: seq<ProductType>)
    ensures forall p :: p in r <==> p in GetFromEdge(stored, DefaultProductTypes()) && p.active
  {
    var r := FilterProductTypes(GetFromEdge(stored, DefaultProductTypes()));
    assert forall p :: p in r <==> multiset(r)[p] > 0;
    r
  }

  /** `orders.find(o => o.uid === uid) || null`. */
  function FindOrder(orders: seq<Order>, uid: string): (r: Option<Order>)
    ensures r.Some? ==> exists k :: 0 <= k < |orders| && orders[k] == r.value && r.value.uid == uid
                          && forall j :: 0 <= j < k ==> orders[j].uid != uid
    ensures r.None? <==> forall k :: 0 <= k < |orders| ==> orders[k].uid != uid
  {
    if orders == [] then None
    else if orders[0].uid == uid then Some(orders[0])
    else
      var r := FindOrder(orders[1..], uid);
      FindOrderStep(orders, uid, r);
      r
  }

  /** The recursive case of `FindOrder`: a miss at the head shifts the first match one place. */
  lemma FindOrderStep(orders: seq<Order>, uid: string, r: Option<Order>)
    requires orders != [] && orders[0].uid != uid
    requires r.Some? ==> exists k :: 0 <= k < |orders| - 1 && orders[1..][k] == r.value && r.value.uid == uid
                           && forall j :: 0 <= j < k ==> orders[1..][j].uid != uid
    requires r.None? <==> forall k :: 0 <= k < |orders| - 1 ==> orders[1..][k].uid != uid
    ensures r.Some? ==> exists k :: 0 <= k < |orders| && orders[k] == r.value && r.value.uid == uid
                          && forall j :: 0 <= j < k ==> orders[j].uid != uid
    ensures r.None? <==> forall k :: 0 <= k < |orders| ==> orders[k].uid != uid
  {
    if r.Some? {
      var k :| 0 <= k < |orders| - 1 && orders[1..][k] == r.value && r.value.uid == uid
                && forall j :: 0 <= j < k ==> orders[1..][j].uid != uid;
      assert orders[k + 1] == r.value;
      assert forall j :: 1 <= j < k + 1 ==> orders[j].uid == orders[1..][j - 1].uid;
    } else {
      assert forall k :: 1 <= k < |orders| ==> orders[k] == orders[1..][k - 1];
    }
  }

  /** `getOrder(uid)` over the stored orders (none when nothing is stored). */
  function GetOrder(stored: Option<seq<Order>>, uid: string): Option<Order> {
    FindOrder(GetFromEdge(stored, []), uid)
  }
}
