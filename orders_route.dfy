/**
 * The orders endpoint: `global.orders`, the in-memory list it serves, with
 * GET returning it and POST validating, normalising the image links and
 * putting the new order at the front.
 */
module OrdersRoute {
  import opened Wrappers
  import opened Records
  import opened Decimal
  import opened JsString
  import opened DriveLinks

  /** The fields of a POST body the handler reads; None is missing or null. */
  datatype OrderRequest = OrderRequest(orderNumber: Option<string>, images: Option<seq<string>>)

  datatype PostResponse =
    | Created(order: Order)
    | BadRequest(error: string)   // status 400

  /** One image link: stored trimmed, thumbnail taken from the untrimmed link; blank links vanish. */
  function NormalizeLink(link: string): seq<Image> {
    if Trim(link) != "" then [ImageRecord(Trim(link), DriveThumbnail(link), None)] else []
  }

  /** Each element's list, concatenated in order. */
  function FlatMap<A, B>(f: A -> seq<B>, s: seq<A>): seq<B> {
    if s == [] then [] else f(s[0]) + FlatMap(f, s[1..])
  }

  lemma {:induction false} FlatMapAppend<A, B>(f: A -> seq<B>, a: seq<A>, b: seq<A>)
    ensures FlatMap(f, a + b) == FlatMap(f, a) + FlatMap(f, b)
  {
    if a == [] {
      assert a + b == b;
    } else {
      assert (a + b)[0] == a[0] && (a + b)[1..] == a[1..] + b;
      FlatMapAppend(f, a[1..], b);
    }
  }

  /** When each element yields at most one item, all satisfying `P`, so does the whole. */
  lemma {:induction false} FlatMapAtMostOne<A, B>(f: A -> seq<B>, P: B -> bool, s: seq<A>)
    requires forall x :: |f(x)| <= 1 && forall i :: 0 <= i < |f(x)| ==> P(f(x)[i])
    ensures |FlatMap(f, s)| <= |s|
    ensures forall i :: 0 <= i < |FlatMap(f, s)| ==> P(FlatMap(f, s)[i])
  {
    if s != [] {
      FlatMapAtMostOne(f, P, s[1..]);
      var head, tail := f(s[0]), FlatMap(f, s[1..]);
      forall i | 0 <= i < |head + tail| ensures P((head + tail)[i]) {
        if i >= |head| {
          assert (head + tail)[i] == tail[i - |head|];
        }
      }
    }
  }

  /** `images.filter(url => url.trim() !== "").map(url => ({url: url.trim(), thumbnail: …}))`. */
  function NormalizeImages(links: seq<string>): seq<Image> {
    FlatMap(NormalizeLink, links)
  }

  /** A stored image: a record with a non-empty trimmed url and no status yet. */
  predicate WellFormed(img: Image) {
    img.ImageRecord? && img.status.None? && img.url != "" && IsTrimmed(img.url)
  }

  lemma NormalizeLinkWellFormed(link: string)
    ensures |NormalizeLink(link)| <= 1
    ensures forall i :: 0 <= i < |NormalizeLink(link)| ==> WellFormed(NormalizeLink(link)[i])
  {
  }

  /** Every stored image is well formed, and none is invented. */
  lemma NormalizedImagesAreTrimmed(links: seq<string>)
    ensures |NormalizeImages(links)| <= |links|
    ensures forall i :: 0 <= i < |NormalizeImages(links)| ==> WellFormed(NormalizeImages(links)[i])
  {
    forall link ensures |NormalizeLink(link)| <= 1 && forall i :: 0 <= i < |NormalizeLink(link)| ==> WellFormed(NormalizeLink(link)[i]) {
      NormalizeLinkWellFormed(link);
    }
    FlatMapAtMostOne(NormalizeLink, WellFormed, links);
  }

  /** Normalising works link by link and keeps their order. */
  lemma NormalizeImagesAppend(a: seq<string>, b: seq<string>)
    ensures NormalizeImages(a + b) == NormalizeImages(a) + NormalizeImages(b)
  {
    FlatMapAppend(NormalizeLink, a, b);
  }

  /** A link is dropped exactly when it is blank. */
  lemma NormalizeOneLink(link: string)
    ensures NormalizeImages([link]) == NormalizeLink(link)
    ensures NormalizeLink(link) == [] <==> IsBlank(link)
  {
    assert [link][1..] == [];
    assert NormalizeImages([link]) == NormalizeLink(link) + NormalizeImages([]);
    TrimEmptyIffBlank(link);
  }

  /** The url a stored image shows: a plain link is its own url. */
  function UrlOf(img: Image): string {
    match img
    case PlainLink(link) => link
    case ImageRecord(url, _, _) => url
  }

  function Urls(imgs: seq<Image>): seq<string> {
    seq(|imgs|, i requires 0 <= i < |imgs| => UrlOf(imgs[i]))
  }

  lemma UrlsAppend(a: seq<Image>, b: seq<Image>)
    ensures Urls(a + b) == Urls(a) + Urls(b)
  {
  }

  /** The url a link is stored under, if it is kept. */
  lemma UrlsOfNormalizeLink(link: string)
    ensures Urls(NormalizeLink(link)) == if Trim(link) != "" then [Trim(link)] else []
  {
    var imgs := NormalizeLink(link);
    if Trim(link) != "" {
      assert |imgs| == 1 && imgs[0].url == Trim(link);
      assert Urls(imgs)[0] == UrlOf(imgs[0]);
    }
  }

  /** A trimmed, non-blank link is stored under itself. */
  lemma NormalizeTrimmedLink(t: string)
    requires t != "" && Trim(t) == t
    ensures Urls(NormalizeImages([t])) == [t]
  {
    NormalizeOneLink(t);
    UrlsOfNormalizeLink(t);
  }

  /** One link's stored url is a fixed point of normalising. */
  lemma NormalizeOneStoredUrl(link: string)
    ensures Urls(NormalizeImages(Urls(NormalizeLink(link)))) == Urls(NormalizeLink(link))
  {
    UrlsOfNormalizeLink(link);
    if Trim(link) != "" {
      TrimIdempotent(link);
      NormalizeTrimmedLink(Trim(link));
    }
  }

  /** The stored urls are already normal: posting them again stores the same urls. */
  lemma {:induction false} NormalizeStoredUrls(links: seq<string>)
    ensures Urls(NormalizeImages(Urls(NormalizeImages(links)))) == Urls(NormalizeImages(links))
  {
    if links != [] {
      var head := Urls(NormalizeLink(links[0]));
      var tail := Urls(NormalizeImages(links[1..]));
      NormalizeStoredUrls(links[1..]);
      NormalizeOneStoredUrl(links[0]);
      UrlsAppend(NormalizeLink(links[0]), NormalizeImages(links[1..]));
      NormalizeImagesAppend(head, tail);
      UrlsAppend(NormalizeImages(head), NormalizeImages(tail));
    }
  }

  /** The record POST creates: pending, unclaimed, uid the decimal creation time. */
  function NewOrder(orderNumber: string, links: seq<string>, now: nat): Order {
    Order(NatToString(now), orderNumber, "pending", None, None, None, now, NormalizeImages(links))
  }

  /** A new order's uid reads back as its creation time. */
  lemma NewOrderUid(orderNumber: string, links: seq<string>, now: nat)
    ensures ParseInt(NewOrder(orderNumber, links, now).uid) == Some(now)
    ensures NewOrder(orderNumber, links, now).createdAt == now
  {
    ParseIntToString(now);
  }

  class OrderBoard {
    /** `global.orders`, most recent first. */
    var orders: seq<Order>

    /** The module-load initialisation `global.orders = []`. */
    constructor ()
      ensures orders == []
    {
      orders := [];
    }

    /** GET: the whole list, in stored order. */
    method Get() returns (all: seq<Order>)
      ensures all == orders
    {
      all := orders;
    }

    /**
     * POST at time `now` (milliseconds, also the source of the uid).
     * Without a truthy order number nothing changes.
     */
    method Post(req: OrderRequest, now: nat) returns (resp: PostResponse)
      modifies this
      ensures !Truthy(req.orderNumber) ==>
        resp == BadRequest("Order number is required") && orders == old(orders)
      ensures Truthy(req.orderNumber) ==>
        && resp == Created(NewOrder(req.orderNumber.value, req.images.GetOr([]), now))
        && orders == [resp.order] + old(orders)
    {
      if !Truthy(req.orderNumber) {
        return BadRequest("Order number is required");
      }
      var order := NewOrder(req.orderNumber.value, req.images.GetOr([]), now);
      orders := [order] + orders;
      resp := Created(order);
    }
  }

  /** A client of the board: a valid POST grows the list by one and keeps the earlier orders behind it. */
  method CreateThenList(board: OrderBoard, req: OrderRequest, now: nat) returns (listed: seq<Order>)
    requires Truthy(req.orderNumber)
    modifies board
    ensures |listed| == |old(board.orders)| + 1 && listed[1..] == old(board.orders)
    ensures listed[0].status == "pending" && listed[0].teamMember.None?
    ensures listed[0].claimedAt.None? && listed[0].completedAt.None?
  {
    var _ := board.Post(req, now);
    listed := board.Get();
  }
}
