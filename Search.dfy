/** The response handling of `search_min_price` (newsletter.py:44-53): the
    HTTP reply is an input value, a status and the offers' total prices. */
module Search {
  import opened Outcomes

  /** A flight-offer search reply: its status code and the total price of each
      offer in its `data` list (no list at all reads as no offers). Prices are
      whole cents. */
  datatype Response = Response(status: int, totals: seq<int>)

  /** `requests`' `raise_for_status` raises for every client or server error. */
  predicate IsHttpError(status: int)
  {
    400 <= status < 600
  }

  /** One step of the minimum fold: `if best is None or price < best: best = price`. */
  function Keep(best: Option<int>, price: int): (r: Option<int>)
    ensures r.Some?
    ensures r.value <= price && (best.Some? ==> r.value <= best.value)
    ensures r.value == price || r == best
  {
    if best.None? || price < best.value then Some(price) else best
  }

  /** The fold of `Keep` over `prices` from the left, starting from None. */
  function MinOf(prices: seq<int>): (r: Option<int>)
    ensures r.None? <==> prices == []
    ensures r.Some? ==> r.value in prices
    ensures r.Some? ==> forall q :: q in prices ==> r.value <= q
  {
    if prices == [] then None
    else
      var init := prices[..|prices| - 1];
      assert prices == init + [prices[|prices| - 1]];
      Keep(MinOf(init), prices[|prices| - 1])
  }

  /** What `search_min_price` makes of a reply: 400 is "no offers", any other
      error status raises, and otherwise the cheapest total (None for none). */
  function QueryOutcome(resp: Response): (r: Result<Option<int>>)
    ensures resp.status == 400 ==> r == Ok(None)
    ensures resp.status != 400 && IsHttpError(resp.status) ==> r == Err(HttpStatus(resp.status))
    ensures !IsHttpError(resp.status) ==> r == Ok(MinOf(resp.totals))
  {
    if resp.status == 400 then Ok(None)
    else if IsHttpError(resp.status) then Err(HttpStatus(resp.status))
    else Ok(MinOf(resp.totals))
  }

  /** `search_min_price` after the request has returned `resp`. */
  method SearchMinPrice(resp: Response) returns (r: Result<Option<int>>)
    ensures r == QueryOutcome(resp)
    ensures resp.status == 400 ==> r == Ok(None)
    ensures r.Ok? && resp.status != 400 ==> (r.value.None? <==> resp.totals == [])
    ensures r.Ok? && r.value.Some? ==>
      r.value.value in resp.totals && forall q :: q in resp.totals ==> r.value.value <= q
  {
    if resp.status == 400 {
      return Ok(None);
    }
    if IsHttpError(resp.status) {
      return Err(HttpStatus(resp.status));
    }
    var best: Option<int> := None;
    var i := 0;
    while i < |resp.totals|
      invariant 0 <= i <= |resp.totals|
      invariant best == MinOf(resp.totals[..i])
    {
      var price := resp.totals[i];
      if best.None? || price < best.value {
        best := Some(price);
      }
      assert resp.totals[..i + 1][..i] == resp.totals[..i];
      i := i + 1;
    }
    assert resp.totals[..i] == resp.totals;
    return Ok(best);
  }
}
