/**
 * The pagination lister `fetch_all_characters`: read the collection's
 * `count`, request every item URL from 1 to `count`, keep the results that
 * are truthy, in index order.
 */
module Listing {

  import opened Wrappers
  import opened Json
  import opened Seqs
  import opened Ident
  import opened Fetcher

  const BaseUrl: string := "https://swapi.dev/api/people/"

  /** `f"{BASE_URL}{i}/"` */
  function ItemUrl(i: nat): (u: string)
    ensures BaseUrl <= u && |u| >= |BaseUrl| + 2 && u[|u| - 1] == '/'
    ensures AllDigits(u[|BaseUrl|..|u| - 1])
  {
    BaseUrl + ShowNat(i) + "/"
  }

  /** The item URLs for `range(1, total + 1)`, in that order. */
  function ItemUrls(total: int): (urls: seq<string>)
    ensures |urls| == if total < 0 then 0 else total
    ensures forall k | 0 <= k < |urls| :: urls[k] == ItemUrl(k + 1)
  {
    seq(if total < 0 then 0 else total, k requires 0 <= k => ItemUrl(k + 1))
  }

  /**
   * The collection answered with an object whose `count` field is `c`
   * (whatever the status code).
   */
  predicate HasCount(e: Exchange, c: Json) {
    && e.Answered?
    && e.response.body.Some?
    && e.response.body.value.JObj?
    && "count" in e.response.body.value.fields
    && e.response.body.value.fields["count"] == c
  }

  /**
   * `data = await response.json(); total = data['count']` on the collection
   * request; `None` where Python raises (transport error, undecodable body,
   * a body that is not an object, no `count`, a `count` that `total + 1`
   * cannot add to).  The status code is not consulted.  A JSON boolean is
   * accepted because Python's `bool` is an `int`.
   */
  function ReadTotal(e: Exchange): (r: Option<int>)
    ensures forall n: int :: HasCount(e, JNum(n)) ==> r == Some(n)
    ensures forall b: bool :: HasCount(e, JBool(b)) ==> r == Some(if b then 1 else 0)
    ensures r.Some? ==> HasCount(e, JNum(r.value)) || (0 <= r.value <= 1 && HasCount(e, JBool(r.value == 1)))
  {
    match e
    case TransportError => None
    case Answered(resp) =>
      match resp.body
      case Some(JObj(fields)) =>
        if "count" !in fields then None
        else (
          match fields["count"]
          case JNum(n) => Some(n)
          case JBool(b) => Some(if b then 1 else 0)
          case _ => None)
      case _ => None
  }

  /** The item requests issued and the records kept. */
  datatype Listing = Listing(requested: seq<string>, found: seq<Json>)

  /** `await asyncio.gather(*tasks)`: one fetch per URL, results in argument order. */
  function GatherItems(web: Web, urls: seq<string>): (results: seq<Json>)
    ensures |results| == |urls|
    ensures forall k | 0 <= k < |urls| :: results[k] == FetchCharacter(web(urls[k]))
  {
    seq(|urls|, k requires 0 <= k < |urls| => FetchCharacter(web(urls[k])))
  }

  /** `fetch_all_characters`; any exception on the collection request gives `[]`. */
  function FetchAllCharacters(web: Web): Listing {
    match ReadTotal(web(BaseUrl))
    case None => Listing([], [])
    case Some(total) =>
      var urls := ItemUrls(total);
      Listing(urls, Filter(GatherItems(web, urls), Truthy))
  }

  /** At most one record per request, and every record kept is truthy. */
  lemma FoundWithinRequested(web: Web)
    ensures |FetchAllCharacters(web).found| <= |FetchAllCharacters(web).requested|
    ensures forall x | x in FetchAllCharacters(web).found :: Truthy(x)
  {
    var r := FetchAllCharacters(web);
    var results := GatherItems(web, r.requested);
    if ReadTotal(web(BaseUrl)).Some? {
      FilterCount(results, Truthy);
      forall x | x in r.found ensures Truthy(x) {
        FilterMembers(results, Truthy, x);
      }
    }
  }

  /** Each item URL names, through its trailing segment, the index it was built from. */
  lemma ItemUrlId(i: nat)
    ensures ExtractId(ItemUrl(i)) == Some(i)
  {
    var prefix := "https://swapi.dev/api/people";
    assert ItemUrl(i) == prefix + "/" + ShowNat(i) + Slashes(1);
    ExtractIdOfNumberedUrl(prefix, i, 1);
  }

  /**
   * With a readable `count` of `total`, the lister issues exactly `total`
   * item requests (none when `total <= 0`), for indices 1..total in
   * increasing order, each exactly once.
   */
  lemma {:induction false} ListingRequests(web: Web, total: int)
    requires ReadTotal(web(BaseUrl)) == Some(total)
    ensures var r := FetchAllCharacters(web);
      && |r.requested| == (if total < 0 then 0 else total)
      && forall k | 0 <= k < |r.requested| :: ExtractId(r.requested[k]) == Some(k + 1)
  {
    ItemUrlsIds(total);
  }

  lemma ItemUrlsIds(total: int)
    ensures forall k | 0 <= k < |ItemUrls(total)| :: ExtractId(ItemUrls(total)[k]) == Some(k + 1)
  {
    var urls := ItemUrls(total);
    forall k | 0 <= k < |urls| ensures ExtractId(urls[k]) == Some(k + 1) {
      assert urls[k] == ItemUrl(k + 1);
      ItemUrlId(k + 1);
    }
  }

  /**
   * The records kept are exactly the truthy results of the item requests;
   * together with the failed requests they account for every request.
   */
  lemma {:induction false} ListingFound(web: Web)
    ensures var r := FetchAllCharacters(web);
      var results := GatherItems(web, r.requested);
      && (forall x :: x in r.found <==> x in results && Truthy(x))
      && |r.found| + |Filter(results, Not(Truthy))| == |r.requested|
  {
    var r := FetchAllCharacters(web);
    var results := GatherItems(web, r.requested);
    if ReadTotal(web(BaseUrl)).None? {
      assert r.requested == [] && results == [];
    } else {
      forall x ensures x in r.found <==> x in results && Truthy(x) {
        FilterMembers(results, Truthy, x);
      }
      FilterCount(results, Truthy);
    }
  }

  /** No count, or a count of zero or less: no item request and no record. */
  lemma NothingToList(web: Web)
    requires match ReadTotal(web(BaseUrl)) case None => true case Some(total) => total <= 0
    ensures FetchAllCharacters(web) == Listing([], [])
  {
  }

  /** When every item request succeeds, every result is kept, in index order. */
  lemma {:induction false} ListingAllSucceed(web: Web)
    requires forall k | 0 <= k < |FetchAllCharacters(web).requested| ::
      Truthy(FetchCharacter(web(FetchAllCharacters(web).requested[k])))
    ensures var r := FetchAllCharacters(web); r.found == GatherItems(web, r.requested)
  {
    var r := FetchAllCharacters(web);
    FilterExtremes(GatherItems(web, r.requested), Truthy);
  }
}
