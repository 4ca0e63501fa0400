/** The records the dashboard keeps: orders, their images, employees and product types. */
module Records {
  import opened Wrappers

  /** One entry of an order's `images` array. */
  datatype Image =
    | PlainLink(link: string)   // a bare string rather than an object
    | ImageRecord(url: string, thumbnail: string, status: Option<string>)

  /**
   * An order. Statuses are the strings the code compares against
   * ("pending", "processing", "completed"); timestamps are milliseconds.
   */
  datatype Order = Order(
    uid: string,
    orderNumber: string,
    status: string,
    teamMember: Option<string>,
    claimedAt: Option<int>,
    completedAt: Option<int>,
    createdAt: int,
    images: seq<Image>)

  datatype Employee = Employee(id: int, name: string, role: string, active: bool, createdAt: Option<int>)

  datatype ProductType = ProductType(id: int, name: string, active: bool, createdAt: Option<int>)

  /** JavaScript truthiness of an optional string: present and non-empty. */
  predicate Truthy(s: Option<string>) {
    s.Some? && s.value != ""
  }
}

/** `max(existing ids) + 1`, the id rule of the employee and product-type routes. */
module Ids {

  /** `Math.max(...ids)`. */
  function Max(ids: seq<int>): (m: int)
    requires |ids| > 0
    ensures m in ids
    ensures forall i :: 0 <= i < |ids| ==> ids[i] <= m
  {
    if |ids| == 1 then ids[0]
    else
      var rest := Max(ids[1..]);
      if ids[0] >= rest then ids[0] else rest
  }

  /** One more than the largest id, or 1 for an empty list. */
  function NextId(ids: seq<int>): (n: int)
    ensures forall i :: 0 <= i < |ids| ==> ids[i] < n
    ensures |ids| == 0 ==> n == 1
    ensures |ids| > 0 ==> n - 1 in ids
  {
    if |ids| > 0 then Max(ids) + 1 else 1
  }

  /** Existing ids {1, 2, 5} give the new id 6. */
  lemma NextIdExample()
    ensures NextId([1, 2, 5]) == 6
  {
    var m := Max([1, 2, 5]);
    assert m in [1, 2, 5];
    assert [1, 2, 5][2] <= m;
  }
}
