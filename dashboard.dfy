/** The dashboard's per-order status, derived from the statuses of its images. */
module Dashboard {
  import opened Wrappers
  import opened Records
  import OrdersRoute

  /** An image object whose `status` is `s`; a bare string never is. */
  predicate HasStatus(img: Image, s: string) {
    img.ImageRecord? && img.status == Some(s)
  }

  /** `images.some(img => typeof img === "object" && img.status === "processing")`. */
  function AnyProcessing(images: seq<Image>): (b: bool)
    ensures b <==> exists i :: 0 <= i < |images| && HasStatus(images[i], "processing")
  {
    if images == [] then false
    else
      assert forall i :: 1 <= i < |images| ==> images[i] == images[1..][i - 1];
      HasStatus(images[0], "processing") || AnyProcessing(images[1..])
  }

  /** `images.every(img => typeof img === "object" && img.status === "completed")`. */
  function AllCompleted(images: seq<Image>): (b: bool)
    ensures b <==> forall i :: 0 <= i < |images| ==> HasStatus(images[i], "completed")
  {
    if images == [] then true
    else
      assert forall i :: 1 <= i < |images| ==> images[i] == images[1..][i - 1];
      HasStatus(images[0], "completed") && AllCompleted(images[1..])
  }

  /** `getStatus(o)`: the order's own `status` field plays no part. */
  function GetStatus(o: Order): (r: string)
    ensures r == "pending" || r == "processing" || r == "completed"
  {
    if |o.images| == 0 then "pending"
    else if AllCompleted(o.images) then "completed"
    else if AnyProcessing(o.images) then "processing"
    else "pending"
  }

  /** The three cases: all images completed; else some image processing; else pending. */
  lemma StatusCases(o: Order)
    ensures GetStatus(o) == "completed" <==>
      |o.images| > 0 && forall i :: 0 <= i < |o.images| ==> HasStatus(o.images[i], "completed")
    ensures GetStatus(o) == "processing" <==>
      && (exists i :: 0 <= i < |o.images| && HasStatus(o.images[i], "processing"))
      && !(forall i :: 0 <= i < |o.images| ==> HasStatus(o.images[i], "completed"))
  {
  }

  /** An order without images is pending, whatever its own status. */
  lemma NoImagesIsPending(o: Order)
    requires o.images == []
    ensures GetStatus(o) == "pending"
  {
  }

  /** Images without a status (bare strings, or objects lacking one) always give "pending". */
  lemma UnstatusedImagesArePending(o: Order)
    requires forall i :: 0 <= i < |o.images| ==> o.images[i].PlainLink? || o.images[i].status.None?
    ensures GetStatus(o) == "pending"
  {
    if |o.images| > 0 {
      assert !HasStatus(o.images[0], "completed");
    }
  }

  /** The status line under each card. */
  function StatusLine(o: Order): string {
    var status := GetStatus(o);
    if status == "processing" then "Processing by " + (if Truthy(o.teamMember) then o.teamMember.value else "Team")
    else if status == "completed" then "Completed"
    else "Pending"
  }

  /** The line tells the three statuses apart: each status has its own line and no other status shares it. */
  lemma StatusLineCases(o: Order)
    ensures GetStatus(o) == "completed" <==> StatusLine(o) == "Completed"
    ensures GetStatus(o) == "pending" <==> StatusLine(o) == "Pending"
    ensures GetStatus(o) == "processing" <==> |StatusLine(o)| >= 14 && StatusLine(o)[..14] == "Processing by "
  {
    var line := StatusLine(o);
    if GetStatus(o) == "processing" {
      assert line[0] == 'P' && line[1] == 'r';
    }
  }

  /** A processing order without a team member is shown as processed by "Team". */
  lemma ProcessingWithoutMemberShowsTeam(o: Order)
    requires GetStatus(o) == "processing" && !Truthy(o.teamMember)
    ensures StatusLine(o) == "Processing by Team"
  {
  }

  /** A freshly posted order shows as pending: its images carry no status yet. */
  lemma NewOrderShowsPending(orderNumber: string, links: seq<string>, now: nat)
    ensures GetStatus(OrdersRoute.NewOrder(orderNumber, links, now)) == "pending"
    ensures StatusLine(OrdersRoute.NewOrder(orderNumber, links, now)) == "Pending"
  {
    OrdersRoute.NormalizedImagesAreTrimmed(links);
    UnstatusedImagesArePending(OrdersRoute.NewOrder(orderNumber, links, now));
  }
}
