/**
 * The product-types endpoint: the Edge Config item "productTypes", with
 * POST appending a new active type under the next id and DELETE
 * deactivating the first type with the given id. As for employees, the
 * reply does not depend on whether `updateEdgeConfig` succeeds.
 */
module ProductTypesRoute {
  import opened Wrappers
  import opened Records
  import Ids
  import Db

  datatype Reply =
    | Added(productType: ProductType)
    | Removed
    | BadRequest(error: string)   // status 400
    | Failed(error: string)       // status 500

  function TypeIds(list: seq<ProductType>): (ids: seq<int>)
    ensures |ids| == |list| && forall i :: 0 <= i < |list| ==> ids[i] == list[i].id
  {
    seq(|list|, i requires 0 <= i < |list| => list[i].id)
  }

  predicate UniqueIds(list: seq<ProductType>) {
    forall i, j :: 0 <= i < j < |list| ==> list[i].id != list[j].id
  }

  /** The list POST writes: the old list, then the new type with a fresh, larger id. */
  function WithNewType(list: seq<ProductType>, name: string, now: int): (r: seq<ProductType>)
    ensures |r| == |list| + 1 && r[..|list|] == list
    ensures r[|list|].name == name && r[|list|].active && r[|list|].createdAt == Some(now)
    ensures forall i :: 0 <= i < |list| ==> list[i].id < r[|list|].id
    ensures list == [] ==> r[0].id == 1
  {
    list + [ProductType(Ids.NextId(TypeIds(list)), name, true, Some(now))]
  }

  /** Adding keeps ids unique. */
  lemma AddKeepsIdsUnique(list: seq<ProductType>, name: string, now: int)
    requires UniqueIds(list)
    ensures UniqueIds(WithNewType(list, name, now))
  {
    var r := WithNewType(list, name, now);
    forall i, j | 0 <= i < j < |r| ensures r[i].id != r[j].id {
      if j < |list| {
        assert r[i] == list[i] && r[j] == list[j];
      } else {
        assert r[i] == list[i];
      }
    }
  }

  /** A new type appears in the product-type listing. */
  lemma AddedTypeIsListed(list: seq<ProductType>, name: string, now: int)
    ensures var r := WithNewType(list, name, now);
      r[|list|] in Db.GetProductTypes(Some(r))
  {
    var r := WithNewType(list, name, now);
    assert r[|list|] in r;
  }

  /** `productTypes.find(pt => pt.id === id)`, as a position. */
  function FirstWithId(list: seq<ProductType>, id: int): (r: Option<nat>)
    ensures r.Some? ==> r.value < |list| && list[r.value].id == id
    ensures r.Some? ==> forall j :: 0 <= j < r.value ==> list[j].id != id
    ensures r.None? <==> forall j :: 0 <= j < |list| ==> list[j].id != id
  {
    if list == [] then None
    else if list[0].id == id then Some(0)
    else
      match FirstWithId(list[1..], id)
      case None => None
      case Some(k) => Some(k + 1)
  }

  /** The list DELETE writes: the first type with the id deactivated, everything else as it was. */
  function Deactivate(list: seq<ProductType>, id: int): (r: seq<ProductType>)
    ensures |r| == |list|
    ensures forall i :: 0 <= i < |list| ==>
      r[i] == if FirstWithId(list, id) == Some(i) then list[i].(active := false) else list[i]
  {
    match FirstWithId(list, id)
    case None => list
    case Some(i) => list[i := list[i].(active := false)]
  }

  /** The position found depends only on the ids. */
  lemma {:induction false} FirstWithIdSameIds(a: seq<ProductType>, b: seq<ProductType>, id: int)
    requires TypeIds(a) == TypeIds(b)
    ensures FirstWithId(a, id) == FirstWithId(b, id)
  {
    if a != [] {
      assert a[0].id == TypeIds(a)[0] == TypeIds(b)[0] == b[0].id;
      assert TypeIds(a[1..]) == TypeIds(a)[1..];
      assert TypeIds(b[1..]) == TypeIds(b)[1..];
      FirstWithIdSameIds(a[1..], b[1..], id);
    }
  }

  /** Deactivating twice is deactivating once. */
  lemma DeactivateIdempotent(list: seq<ProductType>, id: int)
    ensures Deactivate(Deactivate(list, id), id) == Deactivate(list, id)
  {
    var r := Deactivate(list, id);
    assert TypeIds(r) == TypeIds(list);
    FirstWithIdSameIds(list, r, id);
  }

  /** With unique ids, a deactivated type drops out of the listing. */
  lemma DeactivatedIsNotListed(list: seq<ProductType>, id: int)
    requires UniqueIds(list)
    ensures forall p :: p in Db.GetProductTypes(Some(Deactivate(list, id))) ==> p.id != id
  {
    var r := Deactivate(list, id);
    forall p | p in Db.GetProductTypes(Some(r)) ensures p.id != id {
      var k :| 0 <= k < |r| && r[k] == p;
      var f := FirstWithId(list, id);
      if f.Some? && f.value != k {
        assert list[k].id != list[f.value].id;
      }
    }
  }

  class ProductTypeConfig {
    /** The Edge Config item "productTypes"; None when it is absent. */
    var stored: Option<seq<ProductType>>

    constructor (initial: Option<seq<ProductType>>)
      ensures stored == initial
    {
      stored := initial;
    }

    /** GET: `getProductTypes()`; `readOk` is whether the read succeeds (a failed one falls back to the seed). */
    method Get(readOk: bool) returns (productTypes: seq<ProductType>)
      ensures productTypes == Db.GetProductTypes(if readOk then stored else None)
    {
      productTypes := Db.GetProductTypes(if readOk then stored else None);
    }

    /**
     * POST at time `now`; `readOk` is whether the raw `get('productTypes')` succeeds
     * (it throws otherwise) and `writeOk` whether `updateEdgeConfig` succeeds.
     */
    method Post(name: Option<string>, now: int, readOk: bool, writeOk: bool) returns (reply: Reply)
      modifies this
      ensures !Truthy(name) ==> reply == BadRequest("Name is required") && stored == old(stored)
      ensures Truthy(name) && !readOk ==> reply == Failed("Failed to add product type") && stored == old(stored)
      ensures Truthy(name) && readOk ==>
        var old_list := Db.GetFromEdge(old(stored), []);
        var list := WithNewType(old_list, name.value, now);
        && reply == Added(list[|old_list|])
        && stored == if writeOk then Some(list) else old(stored)
    {
      if !Truthy(name) {
        return BadRequest("Name is required");
      }
      if !readOk {
        return Failed("Failed to add product type");
      }
      var productTypes := Db.GetFromEdge(stored, []);
      var list := WithNewType(productTypes, name.value, now);
      if writeOk {
        stored := Some(list);
      }
      reply := Added(list[|productTypes|]);
    }

    /** DELETE; an id of 0 is as missing as no id. Only a found type causes a write; `readOk` and `writeOk` as for POST. */
    method Delete(id: Option<int>, readOk: bool, writeOk: bool) returns (reply: Reply)
      modifies this
      ensures (id.None? || id == Some(0)) ==>
        reply == BadRequest("Product type ID is required") && stored == old(stored)
      ensures id.Some? && id.value != 0 && !readOk ==>
        reply == Failed("Failed to remove product type") && stored == old(stored)
      ensures id.Some? && id.value != 0 && readOk ==>
        var list := Db.GetFromEdge(old(stored), []);
        && reply == Removed
        && stored == if writeOk && FirstWithId(list, id.value).Some? then Some(Deactivate(list, id.value)) else old(stored)
    {
      if id.None? || id.value == 0 {
        return BadRequest("Product type ID is required");
      }
      if !readOk {
        return Failed("Failed to remove product type");
      }
      var productTypes := Db.GetFromEdge(stored, []);
      var found := FirstWithId(productTypes, id.value);
      if found.Some? && writeOk {
        stored := Some(Deactivate(productTypes, id.value));
      }
      reply := Removed;
    }
  }
}
